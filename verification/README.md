# MerryV2 virtual machine: a verified model

MerryV2 runs a program on several virtual cores. Each core is a thread that interprets
64-bit instruction words. A core that needs the operating system puts a request into a shared
queue and sleeps on its own condition variable; the OS thread pops requests, serves them and
signals. The cores share a paged data memory and a paged instruction memory, which a reader fills
from a program file, and the OS keeps a table of dynamic libraries.

The model has five parts.

* **Request rendezvous.** `RequestRing` is the request queue as a value and shows it to be a
  bounded FIFO; `RequestQueue` is the circular linked list on the heap; `RequestHandler` holds
  the critical sections under the handler lock, first as functions, then as methods on the
  heap queue. `Rendezvous` is a state machine of all threads: every action is one atomic step
  (taking the lock, one critical section, going to sleep, one turn of a loop), and any interleaving
  of enabled actions is a run. `RendezvousCalm` treats runs without panic, `RendezvousPanic` what
  the first panic does, `RendezvousAftermath` how the run ends after it, `RendezvousOverflow` when
  the queue overflows, `RendezvousOverrun` and `RendezvousHalt` the count of active cores,
  `RendezvousHaltLimit` the exact bound of that result, and `RendezvousLedger` says of every run
  what the requests served and the steps taken so far make of cores, counter and stop marks.
  `OsCores` is the table of cores and threads.
* **Data memory.** `Paging` reads a page table as one flat sequence; `DataMemory` proves typed
  accesses, block copies, growth and the retry of the program options against it; `Bytes` has
  the byte orders.
* **Interpreter.** `Core` is decoding and one turn on values; `CoreMachine` is the core with
  arrays changed in place, proved to do what `Core` says; `CoreEncoding` is the layout of
  instruction words. `CoreRuns` treats runs of straight code: `CoreIntegers` as arithmetic with
  whole numbers, `CoreBits` bit by bit, `CoreFlags` what it leaves in the flags, `CoreUndo` how it
  is undone. `CoreLoop`, `CoreStack`, `CallReturn` and `GrowingStack` prove properties of runs with
  LOOP, the operand stack, and CALL and RET.
* **Program files.** `ProgramFile` is the format, `ProgramReader` the reader with its loops,
  `InstructionMemory` the word-paged store; `ProgramReader.LoadProgram` joins them.
* **Dynamic libraries.** `DynLoader`.

`Arith`, `Bits`, `Finite`, `Words` and `Wrappers` hold number facts, binary digits, a counting argument,
64-bit wrap-around and values that may be missing.

## Reading the model

Memory is sequentially consistent, there are no spurious wake-ups, and waiting on a condition
variable releases the lock and goes to sleep in one step. The answers of the host (what dlopen
returns, what uninitialised memory holds, what the host flags are after an instruction) are
inputs. Page sizes are parameters. History variables of `Rendezvous.State` are read by no action.

Where the code and its own description differ, the model follows the code:

* kill_requests is described as waking every waiting core; it wakes the older half of a linked queue
  (`RequestRing.KillEmptiesQueueIffShort`), and who is left when the OS has stopped is said by
  `RendezvousCalm.AsleepWhenStoppedCalm` and, after a panic, `RendezvousAftermath.AsleepWhenStopped`.
* A push after a panic reports success without queueing anything, and an overflowing push,
  unlike a panic, leaves the handler open; so with three cores more than queue nodes, or two
  and no node, a halt can be served twice (`RendezvousHaltLimit.ActiveCountExactIff`).
* An emergency push overwrites the oldest request. The only queue entry that can still carry the
  condition variable of its core is the last one now counted, the spare node, and it does so exactly
  when that node holds an earlier request of the same core
  (`RendezvousPanic.EmergencyLosesOldestRequest`, for panics and overflows alike). After a panic
  the core therefore sleeps on for good, unless in addition it was the only one queued and the OS was not yet on its way to kill_requests;
  then it can be woken, and only then (`RendezvousAftermath.OldestWakesIff`; both for a panic that
  no overflow preceded).
* The magic of a program file is accepted if any one of its three letters is right
  (`ProgramFile.OneLetterIsEnough`), the totals leave out the 40 bytes of the header and wrap at
  2^64 (`ProgramFile.PresentBelowWrap`, `ProgramFile.WrappedTotalPasses`).
* popa does not restore register 0 and accepts the empty stack (`CoreStack.PopAllIsNotInverse`,
  `CoreStack.PopAllOnEmpty`).
* A block write that fails may already have changed the tail of its first page
  (`DataMemory.DMemory.WriteBytes`).
* Loading a library that was unloaded returns its closed entry with success, exactly until another
  library takes that entry (`DynLoader.ReloadStaysClosed`); after that it is opened anew
  (`DynLoader.ReopenedAfterTaken`).

`dafny verify dfyconfig.toml` checks everything.

## Model

| member | source | states |
|---|---|---|
| `RequestRing.New` | merry/tools/merry_queue.h:178-203 | a new queue holds nothing and has capacity node_count |
| `RequestRing.HeadIsTailIffEmpty` | merry/tools/merry_queue.h:178-234 | on a queue changed by pushes and pops only, head equals tail if and only if it is empty, because of the spare node |
| `RequestRing.PushAppends` | merry/tools/merry_queue.h:206-220 | a push appends, unless node_count entries are queued; then nothing changes |
| `RequestRing.PopRemovesOldest` | merry/tools/merry_queue.h:222-234 | a pop removes exactly the oldest entry, which is the one delivered |
| `RequestRing.StepRefines` | merry/tools/merry_queue.h:206-234 | one operation answers and changes the queue as a bounded sequence would |
| `RequestRing.RunRefines` | merry/tools/merry_queue.h:178-234 | every sequence of pushes and pops gives the answers and the contents of a bounded FIFO sequence of capacity node_count |
| `RequestRing.PanicPushBreaksLink` | merry/merry_request_queue.c:42-46 | an emergency push is the next entry popped, costs the oldest entry, keeps the others, and always leaves head, tail and counter out of step |
| `RequestRing.KillLoopPopsHalf` | merry/merry_request_hdlr.c:48-58 | on every ring, linked or put out of step by an emergency push, the loop pops half of the passes left, rounded up, and those are the entries that as many single pops deliver |
| `RequestRing.KillLoopPopsOldestHalf` | merry/merry_request_hdlr.c:48-58 | on a linked queue what the loop pops, then what stays, is the queue in order |
| `RequestRing.KillEmptiesQueueIffShort` | merry/merry_request_hdlr.c:48-58 | for every linked queue of length k the oldest ceil(k/2) requests are popped and the newest floor(k/2) stay; so the queue is emptied, as the name says, only if k is at most 1 |
| `RequestQueue.Queue.constructor` | merry/tools/merry_queue.h:178-203 | the creation loop builds one cycle of node_count + 1 distinct new nodes with head and tail on the same one |
| `RequestQueue.Queue.Walk` | merry/tools/merry_queue.h:189-200 | following next k times from head is the k-th position of the ring |
| `RequestQueue.Queue.WalkIsOneCycle` | merry/tools/merry_queue.h:189-200 | the first node_count + 1 steps meet pairwise distinct nodes of the queue and the next one is back at head |
| `RequestQueue.Queue.WalkReaches` | merry/tools/merry_queue.h:189-200 | every node of the queue is met within node_count steps from head |
| `RequestQueue.Queue.TailIsCountStepsFromHead` | merry/tools/merry_queue.h:206-234 | on a linked queue, which is what pushes and pops keep, tail is data_count next-steps from head, and head equals tail if and only if data_count is 0 |
| `RequestQueue.Queue.PushRequest` | merry/merry_request_queue.c:26-33 | the heap push does what the ring push does, is refused exactly when full, and relinks no node |
| `RequestQueue.Queue.PopRequest` | merry/merry_request_queue.c:35-40 | the heap pop does what the ring pop does and delivers the head value |
| `RequestQueue.Queue.PanicPushError` | merry/merry_request_queue.c:42-46 | the head node is overwritten with an error that carries no condition variable, and one more entry is counted |
| `RequestHandler.RequestHdlr.constructor` | merry/merry_request_hdlr.c:3-19 | the handler starts open with an empty queue |
| `RequestHandler.RequestHdlr.PushRequest` | merry/merry_request_hdlr.c:21-46 | all three ways out: ignored when closed, overflow with an emergency error that does not close the handler, or queued; the host is signalled exactly when the handler is open and its queue was empty |
| `RequestHandler.RequestHdlr.Panic` | merry/merry_request_hdlr.c:60-72 | only the first panic reaches the queue, and it closes the handler; it signals the host exactly when the queue was empty |
| `RequestHandler.RequestHdlr.PopRequest` | merry/merry_request_hdlr.c:74-85 | a pop delivers the front entry, or nothing exactly when the counter is 0 |
| `RequestHandler.RequestHdlr.KillRequests` | merry/merry_request_hdlr.c:48-58 | the loop on the heap queue terminates, pops and signals, in order, exactly the requests that KillLoop says, whatever state the queue is in |
| `RequestHandler.SignalledAtFirstEntry` | merry/merry_request_hdlr.c:38-39 | the calls that signal the host are exactly those that take the number of entries from 0 to 1 |
| `RequestHandler.SignalledSinceEmpty` | merry/merry_request_hdlr.c:31-67 | over any sequence of pushes, panics and pops from an empty queue: while there are entries, the host has been signalled since the queue was last empty |
| `Rendezvous.InitBasic` | merry/merry_os.c:49-70 | the start state satisfies lock discipline, core numbering, boot order and the bookkeeping of requests |
| `Rendezvous.StepBasic` | merry/merry_request_hdlr.c:21-85 | every step of every thread keeps mutual exclusion on the handler lock, cores[i].core_id == i, boot order, fetched = answered + in service, and "handler open if and only if no panic yet" |
| `RendezvousCalm.StepCalm` | merry/merry_request_hdlr.c:21-46 | a step after which still no panic or overflow has happened keeps the matching between outstanding requests and waiting cores |
| `RendezvousCalm.CalmRun` | merry/merry_request_hdlr.c:21-46 | every state of every run satisfies the basic invariant, and the matching invariant while no panic or overflow has happened |
| `RendezvousCalm.AsleepIffOneOutstanding` | merry/merry_request_hdlr.c:33-44 | in every run and interleaving, while no panic and no overflow has happened, a core waits if and only if an outstanding request carries its condition variable, and there is never a second one |
| `RendezvousCalm.SignalFindsSleeper` | merry/merry_os.c:260-261 | while no panic and no overflow has happened, every signal the OS is about to send, after serving or from kill_requests, finds the requesting core already asleep, and wakes that core only |
| `RendezvousCalm.ServedInAcceptanceOrder` | merry/merry_os.c:183-262 | while no panic and no overflow has happened, requests fetched are a prefix of those accepted, in order, accepted = answered + in service + killed + queued with nothing killed before the OS stops, and every accepted request names its core |
| `RendezvousCalm.AcceptedNamesItsCore` | merry/merry_request_hdlr.c:21-46 | in every run, panics and overflows included, id and condition variable of every accepted request are those of the core that made it |
| `RendezvousCalm.KillsHalf` | merry/merry_request_hdlr.c:48-58 | in every run kill_requests pops half of the entries it finds, rounded up, and the OS pops nothing afterwards |
| `RendezvousCalm.AsleepWhenStoppedCalm` | merry/merry_os.c:155-166 | when the OS of a run without panic or overflow has stopped, the cores asleep are exactly those with an accepted request behind the ones fetched and killed |
| `RendezvousCalm.PusherLeavesRoom` | merry/merry_request_hdlr.c:28-37 | while no panic and no overflow has happened, a core that is pushing is not waiting, so fewer requests are queued than there are cores |
| `RendezvousCalm.NoOverflow` | merry/merry_request_hdlr.c:28-37 | in any run, panics and NEWCORE included, no push takes the overflow branch while cores do not outnumber node_count |
| `RendezvousOverflow.OverflowReachable` | merry/merry_request_hdlr.c:31-37 | with more cores than nodes there is a run, built step by step, whose last push overflows |
| `RendezvousOverflow.OverflowIffCoresOutnumberNodes` | merry/merry_request_hdlr.c:28-37 | for a fixed number of cores the overflow branch is reachable if and only if cores outnumber node_count |
| `RendezvousPanic.PanicStrikes` | merry/merry_request_hdlr.c:60-72 | whatever state the first panic strikes, its error is at the front of the queue and the handler is closed |
| `RendezvousPanic.StepAfterPanic` | merry/merry_os.c:183-262 | every later step keeps the handler closed, the accepted requests as they were, and the queue changed by pops only |
| `RendezvousPanic.FirstPanicIsFinal` | merry/merry_request_hdlr.c:60-85 | from the first panic of any run on, no request and no second error enters the queue, the next pop returns that error, and the OS fetches nothing but that error before it stops |
| `RendezvousPanic.StepPanicInv` | merry/merry_os.c:195-205 | in every state after a panic its error is at the front of the queue or the OS is stopping |
| `RendezvousPanic.EmergencyLosesOldestRequest` | merry/merry_request_hdlr.c:31-72 | an emergency push on a non-empty queue, by the first panic or the first overflow of a run, leaves the core with the oldest queued request waiting, and of all entries now counted only the last can carry its condition variable: exactly when the spare node still holds an earlier request of this core |
| `RendezvousPanic.EmergencyOnEmptyQueueLosesNone` | merry/merry_request_queue.c:42-46 | an emergency push on an empty queue, by the first panic or the first overflow, costs no core its request: whoever waits is still in service |
| `RendezvousAftermath.BehindRun` | merry/merry_os.c:183-262 | every state behind the first panic, when no push overflowed before it: the OS goes through fixed phases with a fixed number of pops, and each core sleeps exactly as its place in service or in the queue determines |
| `RendezvousAftermath.OldestSleepsOn` | merry/merry_request_hdlr.c:48-72 | after a panic that no overflow preceded, the core with the oldest queued request sleeps in every later state, unless it was the only one queued, the spare node carried its condition variable, and the OS was not yet on its way to kill_requests |
| `RendezvousAftermath.OldestWakesIff` | merry/merry_request_hdlr.c:48-72 | that condition is exact: some continuation wakes the core if and only if it holds |
| `RendezvousAftermath.OldestMayWakeReachable` | merry/merry_request_hdlr.c:48-72 | with two cores or more and any queue with a node the exception is reachable: one core is served once for every node and makes one request more before the other panics |
| `RendezvousAftermath.AsleepWhenStopped` | merry/merry_os.c:155-166 | when the OS has stopped after a panic that no overflow preceded, the cores asleep are exactly those whose request was queued when the panic struck and is not among the ones kill_requests still reached |
| `RendezvousAftermath.CanStop` | merry/merry_os.c:183-262 | from any state behind such a panic in which no core holds the handler lock the OS alone can finish |
| `RendezvousHalt.StepAllInv` | merry/merry_os.c:207-216 | one invariant covers halts without overflow and, as long as cores are at most node_count + 2 and the queue has a node, with it |
| `RendezvousHalt.ActiveCountIsExact` | merry/merry_os.c:105-116 | while no push has overflowed, and beyond that while cores are at most node_count + 2 and the queue has a node, active_core_count is the number of booted cores whose halt has not been served, and every halted core has been told to stop |
| `RendezvousHalt.HaltServedOncePerCore` | merry/merry_os.c:333-347 | under the same condition serving a halt never underflows the counter, hits a core asleep on this request that was not halted before, and stops it before it is woken |
| `RendezvousHalt.HaltedCoreMakesNoRequest` | merry/merry_core.c:94-112 | under the same condition, for a core whose halt was served, from HALT or INTR 151, no step that would make a request or report an error is ever open again, and its next turn leaves the loop |
| `RendezvousHaltLimit.HaltServedTwice` | merry/merry_request_hdlr.c:31-37 | with three cores more than nodes, and at least one node, there is a run that serves one halt twice and leaves active_core_count one too low |
| `RendezvousHaltLimit.HaltServedTwiceWithoutNodes` | merry/merry_request_hdlr.c:31-37 | with no node two cores are enough for that |
| `RendezvousHaltLimit.AloneRun` | merry/merry_request_hdlr.c:31-37 | with no node a single core never gets a request queued, and the counter is exact |
| `RendezvousHaltLimit.ActiveCountExactIff` | merry/merry_os.c:207-216 | for every number of cores and every queue, active_core_count is exact in all runs if and only if cores are at most node_count + 2, or at most one if there is no node |
| `RendezvousLedger.OsReportsIff` | merry/merry_os.c:209-252 | in some run the OS reports an error while it serves a request with a given number, exactly if it is DYNL, DYNCALL, FCLOSE, FREAD, FWRITE, FEOF or REWIND |
| `RendezvousLedger.CoresAddedByNewCore` | merry/merry_os.c:349-361 | serving NEWCORE adds one core with the next number, running and not told to stop; no other step changes the number of cores |
| `RendezvousLedger.CoresAreStartPlusServed` | merry/merry_os.c:221-223 | in every state of every run there are as many cores as at the start plus the NEWCORE requests the OS is past serving |
| `RendezvousLedger.AddedCoreHasItsStep` | merry/merry_os.c:118-153 | every core beyond those of the start was appended, under its own number, by the service of one NEWCORE request |
| `RendezvousLedger.ActiveCountBalances` | merry/merry_os.c:105-223 | in every state of every run, underflows included, active_core_count is cores booted plus NEWCORE served minus HALT served, modulo 2^64 |
| `RendezvousLedger.HaltedAreServed` | merry/merry_os.c:333-347 | the halted cores are exactly those that a served HALT request names |
| `RendezvousLedger.ToldToStopIff` | merry/merry_core.c:94-112 | in every run stop_running of a core is set exactly if it returned from a HALT, overflowed the queue or was ignored in a HALT, reported an error, was named by a served HALT, or was reached by prepare_for_exit |
| `RendezvousLedger.OsStopsIff` | merry/merry_os.c:155-186 | os.stop is set exactly by a HALT served for the only core or by the end of kill_requests; the OS pops only while it is unset and the counter is not 0, and ends only otherwise |
| `RendezvousLedger.AllToldBeforeKill` | merry/merry_os.c:155-166 | in every run prepare_for_exit has told every core to stop before the first request is killed |
| `RendezvousLedger.DepartingIsLast` | merry/merry_core.c:94-112 | a core that executes HALT, reports an error or overflows the queue starts no further request or report in any run |
| `RendezvousLedger.AtMostOneMoreRequest` | merry/merry_core.c:94-99 | a core that has been told to stop starts at most one more request or report |
| `RendezvousLedger.CallIsLastAsked` | merry/merry_core.c:109-112 | a core inside a request is inside the last one it started, and tells a HALT from an INTR |
| `RendezvousLedger.ExitedIff` | merry/merry_core.c:94-99 | a core has left its loop exactly if it came to the top of it after being told to stop |
| `OsCores.Os.constructor` | merry/merry_os.c:45-53 | one core per entry of the EAT, core i with id i, none running or stopped |
| `OsCores.Os.BootCore` | merry/merry_os.c:105-116 | one core gets its start address and, as the host answers, no thread, an idle one or a running one; only the last makes it active, and the table stays |
| `OsCores.Os.BootAll` | merry/merry_os.c:172-180 | core i starts at entry i of the EAT and as many cores are active as there are; a failure at core f > 0 leaves f - 1 cores in the table, told to exit, and core f - 1 running without being told; a failure at core 0 wraps the count |
| `OsCores.Os.AddCore` | merry/merry_os.c:118-153 | copying both arrays keeps every core and thread in its place and appends a core whose id is the old count, so cores[i].core_id == i survives; without memory nothing changes except that the lock stays held |
| `OsCores.Os.PrepareForExit` | merry/merry_os.c:155-166 | every core is told to stop, exactly the requests that the kill loop pops are signalled in order, whatever state the queue is in, and the OS loop ends |
| `Paging.EffectiveIsIdentityBelowLimit` | merry/dev/merry_dmemory.h:60-64 | the 32-bit page field loses nothing exactly for addresses below 2^32 pages |
| `Paging.EffectiveIsRemainder` | merry/dev/merry_dmemory.h:60-64 | above, the access goes to the address modulo 2^32 pages |
| `Paging.PageCountTest` | merry/merry_dmemory.c:605-613 | the page-count test of the copy loops is the flat bound address + length <= total, for every split into first part, whole pages and rest |
| `Paging.PageUpdate` | merry/merry_dmemory.c:641-672 | writing into one page splices the flat memory at that place |
| `Paging.OtherPage` | merry/merry_dmemory.c:641-672 | writing into one page leaves every other page as it was in the flat memory |
| `DataMemory.DMemory.constructor` | merry/merry_dmemory.c:95-126 | the mapped pages become, in order, the pages of one flat memory |
| `DataMemory.DMemory.AddNewPage` | merry/merry_dmemory.c:80-93 | the flat memory is extended by one page of zeros and keeps every byte and every page |
| `DataMemory.DMemory.WriteBytes` | merry/merry_dmemory.c:629-673 | a block write succeeds if and only if it starts inside and ends within the flat memory, and splices exactly its bytes; a failing one changes nothing or exactly the tail of the first page |
| `DataMemory.DMemory.WriteFrom` | merry/merry_dmemory.c:641-672 | the same for a first page that exists |
| `DataMemory.DMemory.WriteFollowing` | merry/merry_dmemory.c:660-670 | the loop over whole pages and the remainder write the rest of the block |
| `DataMemory.DMemory.GetBytes` | merry/merry_dmemory.c:576-627 | a block read succeeds under exactly the bound of the write and returns the bytes followed by a NUL |
| `DataMemory.DMemory.ReadFollowing` | merry/merry_dmemory.c:614-624 | the loop over whole pages and the remainder read the rest of the block |
| `DataMemory.BlockReadBack` | merry/merry_dmemory.c:576-673 | a block write that succeeds is read back |
| `DataMemory.DMemory.ReadValue` | merry/merry_dmemory.c:144-156 | a read of width 1, 2, 4 or 8 succeeds if and only if the page number, cut to 32 bits, is that of a page and the offset plus the width is at most the page size; it reads the flat memory little-endian |
| `DataMemory.DMemory.WriteValue` | merry/merry_dmemory.c:364-424 | a write of width 1, 2, 4 or 8 succeeds under the same condition and changes exactly those bytes of the flat memory |
| `DataMemory.TypedReadBack` | merry/merry_dmemory.c:364-424 | after a successful typed write a read of any width inside it succeeds and gives the matching little-endian slice of the value |
| `DataMemory.TypedNoInterference` | merry/merry_dmemory.c:144-424 | a typed write never changes a typed read of other bytes |
| `DataMemory.TypedReadsBlock` | merry/merry_dmemory.c:144-673 | a typed read inside a block that was written gives those bytes of the block, lowest first |
| `DataMemory.BlockReadsTyped` | merry/merry_dmemory.c:364-627 | byte i of what a typed write stored is the value divided by 256^i, modulo 256 |
| `DataMemory.TypedInside` | merry/merry_dmemory.c:364-383 | an access inside a successful access succeeds, on the same page |
| `DataMemory.DMemory.InstallOptions` | merry/merry_os.c:29-37 | fail, add one page, retry: the memory is the one of a single write, on the old memory if it fits and on the grown one if not |
| `DataMemory.RetryIsOneWrite` | merry/merry_os.c:29-37 | failing, growing and writing again gives the same flat memory as growing first and writing once, partial first page included |
| `DataMemory.RetrySucceedsIff` | merry/merry_os.c:29-37 | the two attempts together succeed if and only if the options fit one page more |
| `DataMemory.DMemory.RequestMem` | merry/merry_os.c:541-553 | Mb is the second byte of the new page |
| `DataMemory.GrantsInOrder` | merry/merry_os.c:541-553 | in any mix of MEM requests and writes the k-th grant is Mb = start of the k-th new page + 1 |
| `DataMemory.GrantIsOwnPage` | merry/merry_os.c:541-553 | every granted range of page size - 1 bytes lies in the memory, in its own page from the second byte to the last, behind all earlier memory |
| `DataMemory.GrantsAreSeparate` | merry/merry_os.c:541-553 | any two granted ranges of page size - 1 bytes are apart |
| `DataMemory.OnlyWritesChangeBytes` | merry/merry_dmemory.c:80-93 | over a whole run of MEM requests and writes a byte changes only if some write covers it, and untouched granted bytes are zero |
| `Bytes.LeSlice` | merry/merry_dmemory.c:364-424 | n bytes from byte i of a stored value are that slice of the value |
| `Bytes.DropIsDivision` | merry/merry_dmemory.c:364-424 | dropping i low bytes is dividing by 256^i |
| `Bytes.LeDigit` | merry/merry_dmemory.c:364-424 | byte i of a little-endian number is its digit of 256^i |
| `Bytes.BeValueOfBytes` | merry/dev/merry_nreader.h:44-59 | big-endian reading inverts big-endian writing |
| `Bytes.BeBytesOfValue` | merry/dev/merry_nreader.h:44-59 | big-endian writing inverts big-endian reading |
| `Bytes.BeJoins` | merry/dev/merry_nreader.h:44-59 | reading joined bytes highest first: those in front count 256 to the number of bytes behind them |
| `Bytes.BeDigit` | merry/dev/merry_nreader.h:44-59 | byte i of a big-endian number of n bytes is its digit of 256^(n-1-i) |
| `Bytes.OrdersMirror` | merry/dev/merry_nreader.h:44-59 | bytes read highest first are their mirror image read lowest first |
| `InstructionMemory.InstMemory.constructor` | merry/merry_memory.c:81-113 | page i of the table holds the i-th page of words |
| `InstructionMemory.InstMemory.Read` | merry/merry_memory.c:130-150 | a read gives the word of that number, or the invalid-access error exactly outside the pages |
| `InstructionMemory.InstMemory.Write` | merry/merry_memory.c:152-164 | a write changes exactly that word, and fails exactly outside the pages |
| `InstructionMemory.InstMemory.GetAddress` | merry/merry_memory.c:166-176 | the place returned is the one a read of that address reads |
| `CoreEncoding.DecodeEncode` | merry/core/merry_core.h:149-153 | every modelled instruction whose operands fit is decoded from its word: opcode, register nibbles and immediates do not overlap, and no two instructions share a word |
| `CoreEncoding.OpcodeIsPlace` | merry/core/merry_opcodes.h:40-198 | the opcode in the word of an instruction is the place of its name in the enumeration of opcodes |
| `CoreEncoding.JumpIsSigned` | merry/merry_core.c:238-245 | an offset jump moves pc, modulo 2^64, by the signed number in the low 48 bits |
| `CoreEncoding.JumpsAgree` | merry/merry_core.c:238-249 | a jump to an address and a jump by the offset that leads there do the same to the core |
| `CoreEncoding.BlockOfWords` | merry/merry_core.c:535-541 | a program with the words of straight-line instructions and a LOOP to the first of them has a block there in the sense of LoopTakesExactly |
| `CoreUndo.UndoRestores` | merry/merry_core.c:94-105 | any sequence of additions, subtractions, increments, decrements, complements and exchanges followed by its inverses in reverse order takes as many turns as it has instructions and leaves every register as it was, whatever wraps and whatever the flags are |
| `CoreUndo.RunDivides` | merry/merry_core.c:847-907 | wherever a run comes to a DIV and a MOD of two equal registers by a third or by an immediate, two turns later they hold quotient and remainder, which recombine to the dividend, with the other registers kept; a zero divisor stops the core at once |
| `CoreRuns.RunFolds` | merry/merry_core.c:94-105 | a run over code that neither jumps nor stops nor uses the stack takes one turn an instruction, and the registers hold what the instructions make one by one, whatever the flags are |
| `CoreRuns.StoppedForGood` | merry/merry_core.c:94-99 | a core that has stopped takes no further turn |
| `CoreRuns.RunLeavesProgram` | merry/merry_core.c:100-104 | a run that comes to an address without an instruction ends there with error 52 and everything else as it was |
| `CoreIntegers.RunIsInteger` | merry/core/merry_core.h:155-171 | any run of additions, subtractions, products, increments, decrements, complements, LEA, moves, exchanges and RESET leaves what the same code computes with whole numbers, cut to 64 bits once at the end |
| `CoreIntegers.RunAddsRepeatedly` | merry/merry_core.c:821-827 | n turns of ADD dst, src add n times the source, modulo 2^64 |
| `CoreIntegers.MultiplyIsRepeatedAdd` | merry/merry_core.c:839-845 | MUL by n leaves what n additions to 0 leave |
| `CoreBits.RunIsBitwise` | merry/merry_core.c:299-317 | any run of AND, OR, XOR, NOT, moves, exchanges and RESET works on each of the 64 bits by itself: bit k of every register is what the code computes with bits k alone |
| `CoreBits.RunSwaps` | merry/merry_core.c:310-313 | three turns of XOR exchange two registers |
| `CoreFlags.FlagAfterRun` | merry/merry_core.c:459-481 | after any run over such code a flag is the outcome of the last instruction that sets the flags, or unset if one that clears it came behind, or as before if there was neither |
| `CoreFlags.GreaterAfterRun` | merry/merry_core.c:345-351 | the mark of a comparison is set exactly if it was set or some CMP of the run found its first register greater, and CFLAGS has not come since; a later CMP does not take it back |
| `CoreLoop.TurnInBlock` | merry/merry_core.c:535-541 | one turn inside a block uses up exactly one of the turns left, or leaves the block with Mc = 0 |
| `CoreLoop.InBlockUntilLastTurn` | merry/merry_core.c:535-541 | no shorter run leaves the block |
| `CoreLoop.LoopTakesExactly` | merry/merry_core.c:535-541 | a block of m straight-line instructions closed by LOOP and entered with Mc = n takes exactly (n+1)*(m+1) turns whatever the flags are, ends at the next instruction with Mc = 0, and touches no stack |
| `CoreLoop.PanicStops` | merry/merry_core.c:94-105 | a run of the interpreter sends an error exactly when it stops, and at most one |
| `CoreStack.StackStep` | merry/merry_core.c:1477-1549 | each stack instruction does to registers and operand stack what the bounded-sequence specification says, and raises exactly its errors |
| `CoreStack.StackRun` | merry/merry_core.c:1477-1549 | so does any run of push_imm, push_reg, pop, pusha and popa, with popa off the empty stack; the depth is sp + 1 modulo 2^64 and bounded |
| `CoreStack.SaveAndRestore` | merry/merry_core.c:1517-1549 | pusha, any code that leaves its 16 slots and sp, popa and a pop into Ma restore all 16 registers and sp |
| `CoreStack.PopAllIsNotInverse` | merry/merry_core.c:1534-1549 | popa right after pusha leaves one value too many, since its loop ends before register 0 |
| `CoreStack.PopAllOnEmpty` | merry/core/merry_core.h:46 | below 16 values the guard of popa stops the core except on the empty stack, which it takes for a full one |
| `CoreMachine.MerryCore.constructor` | merry/merry_core.c:4-47 | registers zero, pc 0, sp the wrapped -1 |
| `CoreMachine.MerryCore.PushValue` | merry/merry_core.c:1477-1502 | the push in place is the specified push |
| `CoreMachine.MerryCore.PopValue` | merry/merry_core.c:1504-1515 | the pop in place is the specified pop |
| `CoreMachine.MerryCore.PushAll` | merry/merry_core.c:1517-1532 | the loop over the registers stores all 16 in order, or stops the core |
| `CoreMachine.MerryCore.PopAll` | merry/merry_core.c:1534-1549 | the downward loop loads registers 15 to 1 and not 0, or stops the core |
| `CoreMachine.MerryCore.LoopBack` | merry/merry_core.c:535-541 | LOOP jumps and decrements Mc exactly when Mc is not 0 |
| `CoreMachine.MerryCore.Arithmetic` | merry/merry_core.c:847-907 | unsigned arithmetic in place, with the zero-divisor panic |
| `CoreMachine.MerryCore.Execute` | merry/merry_core.c:106-541 | the switch does to the core what the specification says for every modelled instruction |
| `CoreMachine.MerryCore.Turn` | merry/merry_core.c:94-105 | fetch from the instruction memory, advance pc, execute; a failed fetch panics with its error |
| `CoreMachine.MerryCore.RunCore` | merry/merry_core.c:90-105 | the loop does any number of turns as the specified run |
| `CallReturn.CallUnit.constructor` | merry/merry_core.c:42 | a core starts with an empty return-address stack of 30 slots, growing by 10 up to 50 |
| `CallReturn.CallUnit.ExecuteCall` | merry/merry_core.c:250-260 | CALL on the stack in place: the advanced pc is pushed before the jump, and a refused push stops the core where it is |
| `CallReturn.CallUnit.ExecuteRet` | merry/merry_core.c:261-271 | RET on the stack in place: pc is the popped address, and an empty stack stops the core |
| `CallReturn.TurnValid` | merry/merry_core.c:250-271 | a CALL is refused exactly at depth 50 and a RET exactly at depth 0; otherwise they push and pop the return address |
| `CallReturn.ErrorIff` | merry/merry_core.c:250-271 | counting calls and returns decides, for every run, whether and with which of the two errors it stops |
| `CallReturn.NestKeepsAddresses` | merry/merry_core.c:250-271 | well-nested code that fits leaves the return addresses as they were |
| `CallReturn.ReturnsBehindCall` | merry/merry_core.c:250-271 | CALL, well-nested body and RET resume right after that CALL |
| `CallReturn.NestFitsIff` | merry/merry_core.c:250-271 | well-nested code runs through if and only if its nesting fits on top of the open calls, else it stops with the depth error |
| `CallReturn.FiftyFirstCallRefused` | merry/core/merry_core.h:48-50 | from the start 50 nested calls are taken and precisely the 51st is refused |
| `GrowingStack.CapacityKept` | merry/merry_stack.c:31-57 | a push stays inside the array except on a full growing stack with growth 0 and a size within the limit; otherwise it never changes the capacity, and succeeds if and only if the stack is below it |
| `GrowingStack.AcceptsExactly` | merry/merry_stack.c:31-57 | from empty exactly len + growth * floor((limit - len) / growth) pushes are accepted |
| `GrowingStack.AcceptedUpToCapacity` | merry/merry_stack.c:31-57 | from any state the pushes up to the capacity are accepted |
| `GrowingStack.LastInFirstOut` | merry/merry_stack.c:43-66 | values pushed come back in reverse order across any resizes, with the entries below as before |
| `GrowingStack.PopManyReverses` | merry/merry_stack.c:59-66 | popping n times delivers the n uppermost entries in reverse and leaves the others |
| `GrowingStack.MerryStack.constructor` | merry/merry_stack.c:3-20 | an empty stack of the given settings, with a limit of 0 meaning 1000 |
| `GrowingStack.MerryStack.Grow` | merry/merry_stack.c:31-41 | reallocation keeps all entries, and is refused exactly above the limit |
| `GrowingStack.MerryStack.PushValue` | merry/merry_stack.c:43-57 | the push in place is the specified one, where that stays inside the array |
| `GrowingStack.MerryStack.PopValue` | merry/merry_stack.c:59-66 | the pop in place is the specified one |
| `ProgramFile.HeaderReadBack` | merry/merry_nreader.c:128-177 | a printed header parses to itself and passes the magic test, whatever follows it |
| `ProgramFile.SectionInverts` | merry/merry_nreader.c:325-355 | a printed section entry parses to itself with RIM cleared for INFO and SYMD |
| `ProgramFile.TableOfFlatten` | merry/merry_nreader.c:242-250 | any table reads back record by record, wherever it stands in the file |
| `ProgramFile.TablesReadBack` | merry/merry_nreader.c:216-364 | any EAT, any instructions and any SsT print and parse to themselves, with an empty EAT becoming the single entry 0 |
| `ProgramFile.PrintParse` | merry/merry_nreader.c:128-364 | printing and parsing gives back sizes, flags, entries, instructions and sections, and data_len is the sum of the RIM section sizes |
| `ProgramFile.PrintedAcceptedIff` | merry/merry_nreader.c:170-214 | any printed file is accepted if and only if it has an instruction, its section sizes are multiples of 8, and both totals, wrapped at 2^64, are at most the file length |
| `ProgramFile.PresentBelowWrap` | merry/merry_nreader.c:356-362 | below 2^64 this means that sections and string table are there but for at most 40 bytes, since the totals leave out the header |
| `ProgramFile.WrappedTotalPasses` | merry/merry_nreader.c:171-175 | above it does not: a string table of almost 2^64 bytes that is not there passes |
| `ProgramFile.TablesAreBytes` | merry/merry_nreader.c:216-306 | for any accepted lengths instructions and entries are exactly the bytes of their sections |
| `ProgramFile.AcceptedIsWhole` | merry/merry_nreader.c:179-364 | of an accepted file whole records are read and nothing is cut off; there is an instruction, all section sizes are multiples of 8, and the symbol flag is set exactly if some section is a symbol section |
| `ProgramFile.HeaderIsBytes` | merry/merry_nreader.c:128-214 | for every accepted file the four lengths are bytes 8 to 39, each highest byte first, and a flag is set exactly if its byte is 1 and its table is there |
| `ProgramFile.EntryIsBytes` | merry/merry_nreader.c:242-250 | for every accepted file start address k is the 8 bytes from 40 + 8k on, highest first |
| `ProgramFile.InstructionIsBytes` | merry/merry_nreader.c:255-306 | for every accepted file instruction k is the 8 bytes from 40 + eat_len + 8k on, lowest first |
| `ProgramFile.SectionsAreBytes` | merry/merry_nreader.c:319-355 | for every accepted file section k is its 16 bytes: size and string-table index highest byte first, kind from bits 0 and 1 of byte 8, and marked RIM exactly if bit 0 of byte 9 is set and the kind is neither INFO nor SYMD |
| `ProgramFile.SumsAdd` | merry/merry_nreader.c:346-355 | section sizes and data length add up over any split of the table |
| `ProgramFile.SumOfOne` | merry/merry_nreader.c:346-355 | a section counts its size, and towards the data length only if it is marked RIM |
| `ProgramFile.OneLetterIsEnough` | merry/merry_nreader.c:133-137 | the magic test rejects only if all three letters are wrong: an accepted file with its first three bytes changed stays accepted if and only if one of them is right |
| `ProgramReader.MerryReader.IsFileFitToRead` | merry/merry_nreader.c:117-126 | files shorter than 40 bytes are refused |
| `ProgramReader.MerryReader.ReadHeader` | merry/merry_nreader.c:128-177 | flags and lengths come from their bytes, and the header is refused exactly by the magic and the wrapped total |
| `ProgramReader.MerryReader.ValidateHeaderInfo` | merry/merry_nreader.c:179-214 | exactly the aligned, non-empty headers pass, and flags without their table are dropped |
| `ProgramReader.MerryReader.ReadEat` | merry/merry_nreader.c:216-253 | the loop over the entries reads the EAT of the specification when its bytes are there |
| `ProgramReader.MerryReader.ReadInstructions` | merry/merry_nreader.c:255-306 | succeeds exactly if all instruction bytes are there, and then word k of page i is instruction i * page size + k, with no page too many |
| `ProgramReader.MerryReader.ReadEntries` | merry/merry_nreader.c:317-355 | the loop succeeds exactly if all entries are there with aligned sizes, and accumulates the total, the RIM sum and the symbol flag |
| `ProgramReader.MerryReader.ReadSst` | merry/merry_nreader.c:309-364 | succeeds exactly if the table is complete, aligned and below the second total |
| `ProgramReader.MerryReader.ReadFile` | merry/merry_nreader.c:93-115 | the reader accepts exactly the specified files, and its fields are what the file parses to |
| `ProgramReader.FetchLoaded` | merry/merry_memory.c:130-150 | a fetch from pages the reader filled gives the instruction of that number |
| `ProgramReader.LoadProgram` | merry/merry_os.c:12-43 | from file to instruction memory: accepted exactly as specified, and every address below 2^32 pages fetches the instruction of that number |
| `DynLoader.NeverUnreachable` | merry/abs/merry_dynl.c:39-48 | while the counter is the number of free entries, a positive counter means the scan finds a free entry and never gets to its last return |
| `DynLoader.FirstFreeFound` | merry/abs/merry_dynl.c:39-48 | the scan returns the first free entry, if there is one |
| `DynLoader.FindFound` | merry/abs/merry_dynl.c:62-70 | the name check returns the first entry of that name, if there is one |
| `DynLoader.NextAgrees` | merry/abs/merry_dynl.c:72-121 | every load and unload keeps the counter equal to the number of free entries |
| `DynLoader.FollowKeeps` | merry/abs/merry_dynl.c:72-121 | every load and unload keeps names of entries ever loaded distinct, open entries holding a handle of their own library, and handles neither lost nor closed twice |
| `DynLoader.TableStaysSound` | merry/abs/merry_dynl.c:3-121 | the same over any sequence of loads and unloads from any initial memory, with every returned handle in range |
| `DynLoader.LoadedIsOpenIff` | merry/abs/merry_dynl.c:72-104 | a successful load returns an open entry of that name if and only if the first entry of the name, if any, is open |
| `DynLoader.LoadedIsFirst` | merry/abs/merry_dynl.c:72-104 | after a successful load the returned entry is the first of its name |
| `DynLoader.ReloadStaysClosed` | merry/abs/merry_dynl.c:72-121 | over any loads and unloads that follow a load and its unload, the entry stays closed under its name exactly until a load takes it; until then loading the library again reports success with that closed entry, whatever the host would answer |
| `DynLoader.StepRetired` | merry/abs/merry_dynl.c:72-121 | the step that ends this is exactly the load of a name not found, answered by the host, for which this entry is the free one used |
| `DynLoader.RetiredLoadStaysClosed` | merry/abs/merry_dynl.c:72-76 | while the entry of an unloaded library is the first of its name, loading that library changes nothing and asks the host nothing |
| `DynLoader.ReopenedAfterTaken` | merry/abs/merry_dynl.c:72-121 | from a table of two entries, as the OS makes it: load A, unload it, load B, load A opens A again, in the other entry |
| `DynLoader.MerryLoader.constructor` | merry/abs/merry_dynl.c:3-15 | all entries start free and are counted, and no handle has been given |
| `DynLoader.MerryLoader.FindFreeHandle` | merry/abs/merry_dynl.c:39-48 | the loop is the specified scan |
| `DynLoader.MerryLoader.CheckEntry` | merry/abs/merry_dynl.c:62-70 | the loop is the specified name check, free entries included |
| `DynLoader.MerryLoader.AddEntry` | merry/abs/merry_dynl.c:50-60 | one more free entry, counted |
| `DynLoader.MerryLoader.LoadLib` | merry/abs/merry_dynl.c:72-104 | the load in place, with its answer, handle and new table; the host is not asked for a name that some entry has, and every handle it gives is held by an entry |
| `DynLoader.MerryLoader.UnloadLib` | merry/abs/merry_dynl.c:106-121 | the unload in place; of every handle, what was given back and what open entries hold stays the same in sum, so the host gets back exactly the handle of an entry that was open |
| `DynLoader.MerryLoader.Close` | merry/abs/merry_dynl.c:17-37 | every handle still open is given back, each once, so that the host has got back exactly what it gave |

## Left out

- Memory allocation succeeds throughout: in the node-creation loop a failing malloc would build a shorter cycle and still report success.
- Host-side wake-ups: the OS waits with a lock other than the one its signallers hold, so the model lets it leave its wait at any time and claims safety and core-side wake-ups only.
- RequestHandler.RequestHdlr.PushRequest: covers the code up to the wait or the unlock; the wait itself is an action of `Rendezvous`.
- RendezvousAftermath.AsleepWhenStopped: follows a run to its end after a panic only. An overflow leaves the handler open, so later pushes go on changing the queue; for that case only the emergency push itself and the count of active cores are treated.
- OsCores.Os.BootAll: when the very first core fails, the wrapped core count leads prepare_for_exit out of the table; nothing is claimed about what it does there. The state machine of `Rendezvous` has successful boots only.
- OsCores.Os.AddCore: a call while the lock is still held from a failed one waits for ever and is not modelled; neither is the result left in Ma.
- Rendezvous.StepBasic: a NEWCORE request adds and boots its core in one step of the OS, and only the effects of requests on cores, counters and queue are kept; EXIT's return value is not.
- DataMemory.DMemory.WriteBytes: addresses are taken through the 32-bit page field, and at most 2^32 pages are assumed; the array written is not one of the memory's own pages.
- DataMemory.DMemory.InstallOptions: the options are one array of the given length, where the code relies on the argument strings lying behind each other.
- DataMemory.DMemory.ReadValue: the atomic variants of the accessors repeat the plain ones; read_dword_atm, CMPXCHG and the functions that return raw addresses are not modelled.
- GrowingStack.MerryStack.PushValue: excludes the one case in which the code writes behind the array, a full growing stack with growth 0.
- CoreMachine.MerryCore.Execute: an instruction it does not cover sets `outside`, after which nothing is claimed; the lines below name these instructions.
- CallReturn.CallUnit.ExecuteCall: pc and return-address stack only; the BP frame on the operand stack and its overflow test are not modelled.
- CallReturn.CallUnit.ExecuteRet: pc and return-address stack only; the BP restore and its underflow test are not modelled.
- HALT and INTR appear in `Rendezvous` as the requests they push, CALL and RET in `CallReturn`.
- Conditional jumps: the flags are whatever compiled C left behind, so each instruction takes them as an input and jumps on them are not modelled.
- Floating point, console and stream input and output, data-memory operands of the interpreter, file requests, dlsym calls, processes and time.
- Instructions whose masks or macros do not give the described result: signed immediates, MOVE of 32 bits and MOVESX, shifts, MOV and EXCG of 8, 16 and 32 bits, 64-bit immediates, CALL_EXCP.
- The remaining immediate forms of AND, OR, XOR and CMP, and stack-variable access.
- CoreStack.StackRun: the stack memory has one slot more than its page, because the guard lets sp reach the page length; popa on the empty stack leaves the model.
- ProgramReader.MerryReader.ReadEat: the entries of a truncated EAT are arbitrary; such a file is rejected when its instructions are read. The buffer on the C stack is taken to be large enough.
- ProgramReader.MerryReader.GetMemFromOs: hands out as many distinct pages as asked for; the code fills only the first slot of its array.
- ProgramReader.MerryReader.ReadFile: ends with the Sections Table; the section data, symbols and string table that follow, and hosts of the other byte order, are not modelled.
- ProgramReader.LoadProgram: accepts a file by its tables only, for the same reason.
- DynLoader.MerryLoader.AddEntry: the new entry is taken to be marked free and the reallocation to be large enough for it; the code leaves the mark to what the memory holds and asks for one byte per entry.
- DynLoader.MerryLoader.LoadLib: names have any length; the 255 bytes of the name field are not modelled.
- Command line, error texts, thread and lock wrappers, destroy and free paths.
