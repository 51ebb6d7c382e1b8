# Verified models of the FreeRTOS demo applications

These Dafny modules model the parts of the FreeRTOS partner demos that contain
real logic, and prove what that logic is for. Kernel services (queues, mutexes,
delays, context switches, critical-section primitives) appear as small explicit
specifications; what is proved is what the demo code does on top of them.

| file | models | main results |
|---|---|---|
| `RegisterTest.dfy` | the AVR register-test programs, instruction by instruction, under a scheduler that may preempt anywhere | `Sound`, `Detected`, `CheckStoresR0`, `YieldsAgain` |
| `FlatMemory.dfy` | memmove, memcpy and memset on one byte memory with integer addresses | `MemMove`, `MemSet`, `SpreadIsRepeat` |
| `StackMonitor.dfy` | the trace recorder's stack monitor | `StarvationFreeByTurns`, `ReportExactly`, `Fair`, `TurnsFaithful`, `TurnsRefineSet` |
| `HandleStacks.dfy` | the trace recorder's object handles | `TableAgrees`, `RangesPartition`, `PerformExactly`, `GetInBounds` |
| `CriticalSections.dfy` | the trace recorder's critical sections | `NestExactly`, `SectionsNest`, `RestoringProtects` |
| `Pipeline.dfy` | sender, receiver and logger over two bounded queues | `CausalOrder`, `PrintedExactly`, `Conservation`, `NoDeadlock`, `Drains` |
| `LogOrder.dfy` | sequences of log lines, and their order when some are lost | `LossExactly` |
| `LogMessage.dfy` | how a log message's text field is filled | `FillText` |
| `Isolation.dfy` | three offending tasks, the MPU, the fault handler and recovery | `Isolated`, `StackIsOwn`, `SaidIsDone`, `Completed` |
| `PingPong.dfy` | ping and pong through a shared flag under a mutex | `Safe`, `RoundPrints`, `RallyGrows`, `EveryoneCanGo` |
| `BringUp.dfy` | starting both cores of the RP2350 | `BootOrder`, `GuardSuffices`, `BothStart` |
| `RunTimeCounter.dfy` | the run-time clock across an unserviced tick | `Linearizable`, `OneCorrectionOnly` |
| `PendedCalls.dfy` | counters on both sides of the timer command queue | `InStepExactly`, `InStep` |

Code that updates state step by step is a class with the source's variables (or
an array) and methods; each method is proved to perform exactly one step of a
specification function on an immutable snapshot of the state, and the whole-run
results are lemmas about those functions. Sizes and limits fixed by
configuration (table sizes, report budgets, queue lengths, clock periods,
register-test bases) are parameters, so the results hold for all their values.

## Where the code does not do what one might expect

- **Register test.** The value stored in `xRegTestError` is `r0` itself, so a
  corruption that zeroes `r0` is not reported, and wipes out an error recorded
  before (`ZeroedR0Unnoticed`). `CheckStoresR0` gives the exact condition: one
  check reports a corruption if and only if the restored `r0` is not zero.
- **Aligned moves.** `memmove` between two aligned pointers takes its word loop
  downwards always, but upwards only if the count is a multiple of eight, because
  it looks at the ends of the regions (`AlignedMove`, `AlignedMoveByBytes`).
- **Handle layout.** The stored bounds describe every class if and only if the
  first class is not empty and the indices fit 16 bits (`LayoutExact`); an empty
  first class gets the upper bound 65535 (`EmptyClassWraps`). The property table
  stores each class's number of objects in the handle type, so layout and table
  agree if and only if, besides, every size fits that type (`TableAgrees`); with
  8-bit handles a class of 300 objects is counted as 44 (`CountTooSmall`).
- **Handle allocation.** `prvTraceGetObjectHandle` reads an entry, and replaces a
  zero in it, before it checks that the class has a handle left. For an exhausted
  class that is the entry just past its range.
  - If no later class has objects, the access is past the end of the array
    (`GetInBounds` is the exact condition). With one object in the first class
    and none elsewhere, the second request does it (`SecondRequestOverruns`).
  - If a later class has, its first entry may be overwritten: `ExhaustedGetSpills`
    says exactly when that does harm, and in the run of `SharedHandle` two
    objects of the next class get the same handle.
  - Sizes may be zero. If a class and all before it are empty, its upper bound
    has wrapped and exhaustion is never noticed: it gives out handles that it
    does not have, taking the other classes' entries (`WrappedGives`,
    `EmptyClassGives`).
  - `PerformExactly` puts all this together: an operation stays inside the array
    and keeps every class's promise if and only if it is `Orderly`. At the start
    all promises hold if and only if every class's handles fit the handle type
    (`FreshExactly`).
- **Handle return.** Where an int has 16 bits, as on the AVR, the check against
  returning more than was handed out wraps for the first class that has objects,
  and the handle is written before the start of the array (`EarlyFreeUnderruns`).
- **Critical sections.** A task-level section opened with interrupts already
  masked by other means ends with interrupts unmasked (`TaskBracketUnmasks`).
  `NestExactly` gives the exact condition for every pair to restore.
- **Message order.** "Received k" may be printed before "Sent k"
  (`ReceivedFirst`) as well as after (`SentFirst`); what holds in every run is
  that at most one more message is reported received than sent, and that the
  k-th Received line follows at least k Sent lines (`CausalOrder`). That is true
  of the lines handed to `prvLogMsg`, which discards the result of its own send.
  What is printed is in that order if and only if no lost line shows in a later
  printed one: one of the same kind, or a Received line with a higher number than
  a lost Sent line (`PrintedExactly`; `LostLineShows` is a run where one does).
- **Second launch.** `xWakeSecondaryCore` does not test whether core 1 runs
  already: each call after initialisation launches it. Core 1 is launched once if
  and only if the port's call is the only one then (`BootOrder`); one call too
  many makes the port launch a running core (`SecondLaunch`).
- **Recovery message.** A task is named by comparing its handle with a small
  index; it is named correctly if and only if the kernel handed out handles in
  the order of creation, starting from one (`NamesItself`).
- **Fault handler.** The comment above `App_Fault_Handler` says that it skips the
  faulting instruction; the code redirects to `vRecoverFromException`, and the
  model follows the code.
- **Pended calls.** The producer's counters advance even when the command queue
  refuses the call. All assertions hold if and only if every executed call has a
  multiple of 2^32 refusals before it (`InStepExactly`); below 2^32 requests
  that means none (`InStep`). `RefusalFails` is a failing run.
- **Run-time counter.** The code adds one tick by hand. With any number of ticks
  unserviced, the result is right modulo 65536 ticks if and only if no tick is
  seen pending, or one, or a multiple of 65536 more, is unserviced
  (`RightExactly`); with two it is a tick short (`TwoTicksPending`).

## Model

| member | source | states |
|---|---|---|
| RegisterTest.Sound | AVR_ATMega4809_MPLAB.X/regtest.c:45-383 | for any number of tasks with any bases, every interleaving with preemption at any instruction boundary, any use of the processor in between and faithful context switches keeps the error at zero |
| RegisterTest.StepUndisturbed | AVR_ATMega4809_MPLAB.X/regtest.c:72-226 | the assertion attached to each program position of each task survives every event, over the live and the saved contexts |
| RegisterTest.Detected | AVR_ATMega4809_MPLAB.X/regtest.c:126-224 | a switch at the yield that hands back registers other than the saved ones, with r0 not zero, has raised the error whenever the task is out of that check, and the error is still there after any further run; earlier, concurrent and later faults with non-zero r0 are allowed |
| RegisterTest.SavedAtYield | AVR_ATMega4809_MPLAB.X/regtest.c:78-126 | what a task saves at its yield is the expected value of every register, whatever faults came before |
| RegisterTest.YieldsAgain | AVR_ATMega4809_MPLAB.X/regtest.c:76-225 | after any run, faults included, a task that goes on executing yields within one pass of 145 of its own instructions, saved with every register freshly loaded, under any interleaving |
| RegisterTest.StepLeft | AVR_ATMega4809_MPLAB.X/regtest.c:76-225 | a measure on positions falls with each of a task's own instructions until its context is saved behind the yield, and no other event changes its position, registers or flag |
| RegisterTest.SwitchRoundTrip | AVR_ATMega4809_MPLAB.X/regtest.c:126 | a preempted or yielded task, restored after any other use of the processor, goes on with the registers, flag and position it had |
| RegisterTest.ErrorStays | AVR_ATMega4809_MPLAB.X/regtest.c:53-69 | a recorded error stays recorded in every run in which no switch hands back a zero r0 |
| RegisterTest.CheckStoresR0 | AVR_ATMega4809_MPLAB.X/regtest.c:128-224 | one undisturbed check ends with r0 in the error variable if any register differs and with the old error otherwise; so it reports if and only if r0 is not zero |
| RegisterTest.ZeroedR0Unnoticed | AVR_ATMega4809_MPLAB.X/regtest.c:128-133 | a concrete corruption of r0 to zero that leaves the error at zero, even if it was set before |
| RegisterTest.RunWatchful | AVR_ATMega4809_MPLAB.X/regtest.c:229-383 | a check that is bound to report stays bound to report until it has, through every interleaving |
| RegisterTest.System.constructor | AVR_ATMega4809_MPLAB.X/regtest.c:45-50 | starts the tasks at their first instruction with no error recorded |
| RegisterTest.System.ExecuteInstruction | AVR_ATMega4809_MPLAB.X/regtest.c:78-225 | one instruction on the register array is one Exec step of the specification |
| RegisterTest.System.SwitchOut | AVR_ATMega4809_MPLAB.X/regtest.c:126 | a yield or a preemption saves registers, flag and position, and leaves the task |
| RegisterTest.System.SwitchIn | AVR_ATMega4809_MPLAB.X/regtest.c:126 | a faithful switch restores exactly the saved registers, flag and position |
| FlatMemory.MemMove | CORTEX_R82_SMP_FVP_GCC_ARMCLANG/crt_replacements.c:66-102 | for every destination, source, count, overlap and alignment: the destination bytes are the old source bytes, every other byte is unchanged, the destination is returned, and the call takes count/8 word steps and count%8 byte steps exactly when its word loop applies |
| FlatMemory.AlignedMove | CORTEX_R82_SMP_FVP_GCC_ARMCLANG/crt_replacements.c:74-96 | for aligned pointers memmove uses its word loop if and only if it moves downwards or the count is a multiple of eight |
| FlatMemory.StepsCover | CORTEX_R82_SMP_FVP_GCC_ARMCLANG/crt_replacements.c:76-99 | word and byte steps cover the count exactly, with fewer than eight byte steps on the fast path |
| FlatMemory.MemCpy | CORTEX_R82_SMP_FVP_GCC_ARMCLANG/crt_replacements.c:104-108 | the same result, also for overlapping regions |
| FlatMemory.MemSet | CORTEX_R82_SMP_FVP_GCC_ARMCLANG/crt_replacements.c:111-135 | every destination byte is the value converted to a byte, all others are unchanged, with the step counts of an aligned or unaligned call |
| FlatMemory.MovedIsReadThenWrite | CORTEX_R82_SMP_FVP_GCC_ARMCLANG/crt_replacements.c:66-102 | the result is that of copying the source out first and only then writing it (ISO/IEC 9899:2011, section 7.24.2.2) |
| FlatMemory.SpreadIsRepeat | CORTEX_R82_SMP_FVP_GCC_ARMCLANG/crt_replacements.c:120 | 0x0101010101010101 times a byte fits 64 bits and holds that byte in each of its eight places |
| FlatMemory.WordRoundTrip | CORTEX_R82_SMP_FVP_GCC_ARMCLANG/crt_replacements.c:77 | loading a group of bytes as a word and storing it again reproduces every byte |
| FlatMemory.ForwardJoin | CORTEX_R82_SMP_FVP_GCC_ARMCLANG/crt_replacements.c:74-85 | moving a part forward and then the rest is moving the whole, whatever the overlap |
| FlatMemory.BackwardJoin | CORTEX_R82_SMP_FVP_GCC_ARMCLANG/crt_replacements.c:86-100 | moving the upper part first and then the lower part is moving the whole |
| FlatMemory.MoveBackRestores | CORTEX_R82_SMP_FVP_GCC_ARMCLANG/crt_replacements.c:66-102 | a block moved to a disjoint place and back is restored, even if overwritten in between |
| FlatMemory.CopyWord | CORTEX_R82_SMP_FVP_GCC_ARMCLANG/crt_replacements.c:77 | one word step at aligned addresses moves eight bytes |
| FlatMemory.FillWord | CORTEX_R82_SMP_FVP_GCC_ARMCLANG/crt_replacements.c:124 | one word store of the pattern at an aligned address fills eight bytes |
| FlatMemory.WordsForward | CORTEX_R82_SMP_FVP_GCC_ARMCLANG/crt_replacements.c:75-82 | the forward word loop moves all whole words, each access aligned, and leaves count%8 bytes |
| FlatMemory.BytesForward | CORTEX_R82_SMP_FVP_GCC_ARMCLANG/crt_replacements.c:83-85 | the forward byte loop completes the move |
| FlatMemory.WordsBackward | CORTEX_R82_SMP_FVP_GCC_ARMCLANG/crt_replacements.c:87-96 | the backward word loop moves all whole words from the top, each access aligned |
| FlatMemory.BytesBackward | CORTEX_R82_SMP_FVP_GCC_ARMCLANG/crt_replacements.c:97-99 | the backward byte loop completes the move |
| FlatMemory.FillWords | CORTEX_R82_SMP_FVP_GCC_ARMCLANG/crt_replacements.c:118-128 | the word loop of memset fills all whole words and leaves count%8 bytes |
| FlatMemory.FillBytes | CORTEX_R82_SMP_FVP_GCC_ARMCLANG/crt_replacements.c:131-132 | the byte loop of memset fills the rest |
| StackMonitor.StarvationFree | AVR_ATMega4809_MPLAB.X/TraceRecorder/trcKernelPort.c:399-428 | a task that stays in the table is reported within ceil(N/MAX) calls, whatever other tasks are added or removed between them |
| StackMonitor.ReportExactly | AVR_ATMega4809_MPLAB.X/TraceRecorder/trcKernelPort.c:399-428 | one call adds exactly min(MAX, occupied slots) reports: the occupied slots ahead of the cursor, each once and in order; it stops just behind the MAX-th, or goes all the way round |
| StackMonitor.OneAtATime | AVR_ATMega4809_MPLAB.X/TraceRecorder/trcKernelPort.c:427 | with two tasks and MAX 1 a call reports the first and leaves the cursor at the second |
| StackMonitor.StarvationFreeByTurns | AVR_ATMega4809_MPLAB.X/TraceRecorder/trcKernelPort.c:399-428 | the same when tasks are added and removed also between the turns of a scan's loop |
| StackMonitor.TurnsReach | AVR_ATMega4809_MPLAB.X/TraceRecorder/trcKernelPort.c:405-427 | a task that stays is reported after as many turns as its slot is away, whatever happens between turns |
| StackMonitor.CallsTakeTurns | AVR_ATMega4809_MPLAB.X/TraceRecorder/trcKernelPort.c:427 | every call that ends has taken at least MAX turns, or as many as there are slots |
| StackMonitor.ScanIsTurns | AVR_ATMega4809_MPLAB.X/TraceRecorder/trcKernelPort.c:405-427 | a scan is its turns with nothing in between |
| StackMonitor.ApplyIsMoments | AVR_ATMega4809_MPLAB.X/TraceRecorder/trcKernelPort.c:362-428 | an add, a removal or a whole call is one moment, or a call's beginning and its turns |
| StackMonitor.Fair | AVR_ATMega4809_MPLAB.X/TraceRecorder/trcKernelPort.c:399-428 | over any calls with a fixed table, two monitored slots are reported equally often, give or take one |
| StackMonitor.RunFaithful | AVR_ATMega4809_MPLAB.X/TraceRecorder/trcKernelPort.c:411-421 | over any run, every report carries the least sample taken for that task since its latest add |
| StackMonitor.TurnsFaithful | AVR_ATMega4809_MPLAB.X/TraceRecorder/trcKernelPort.c:411-421 | the same with adds and removals between the turns of a scan |
| StackMonitor.LeastIsMinimum | AVR_ATMega4809_MPLAB.X/TraceRecorder/trcKernelPort.c:414-415 | that least sample is a lower bound of the samples and one of them |
| StackMonitor.AddRefinesMap | AVR_ATMega4809_MPLAB.X/TraceRecorder/trcKernelPort.c:362-383 | seen as a map, adding a new task inserts it while fewer than N are present, and otherwise only counts a drop |
| StackMonitor.RemoveRefinesMap | AVR_ATMega4809_MPLAB.X/TraceRecorder/trcKernelPort.c:385-397 | seen as a map, removing a task deletes exactly it |
| StackMonitor.TurnsRefineSet | AVR_ATMega4809_MPLAB.X/TraceRecorder/trcKernelPort.c:362-428 | over whole runs, changes between turns included, the table is the set of tasks added and not removed since, bounded by N |
| StackMonitor.TurnsClear | AVR_ATMega4809_MPLAB.X/TraceRecorder/trcKernelPort.c:393-394 | in every run a slot given up holds no mark |
| StackMonitor.RoomWhenFewer | AVR_ATMega4809_MPLAB.X/TraceRecorder/trcKernelPort.c:368-377 | an empty slot exists if and only if fewer than N tasks are present |
| StackMonitor.ScanApproaches | AVR_ATMega4809_MPLAB.X/TraceRecorder/trcKernelPort.c:405-427 | one call either reports an occupied slot or moves the cursor at least MAX slots closer to it |
| StackMonitor.VisitPotential | AVR_ATMega4809_MPLAB.X/TraceRecorder/trcKernelPort.c:426 | each turn of the scan loop advances every monitored slot's progress by exactly one |
| StackMonitor.Monitor.AddTaskToStackMonitor | AVR_ATMega4809_MPLAB.X/TraceRecorder/trcKernelPort.c:362-383 | the search loop puts the task into the first empty slot or counts it as not included |
| StackMonitor.Monitor.RemoveTaskFromStackMonitor | AVR_ATMega4809_MPLAB.X/TraceRecorder/trcKernelPort.c:385-397 | the loop clears every slot of the task and no other |
| StackMonitor.Monitor.ReportStackUsage | AVR_ATMega4809_MPLAB.X/TraceRecorder/trcKernelPort.c:399-428 | the do-while scan with static cursor and budget is the specified call, and adds at most MAX reports |
| StackMonitor.Monitor.VisitSlot | AVR_ATMega4809_MPLAB.X/TraceRecorder/trcKernelPort.c:407-426 | one turn lowers and reports the mark of an occupied slot and moves the cursor on, wrapping |
| StackMonitor.Monitor.LoopTurn | AVR_ATMega4809_MPLAB.X/TraceRecorder/trcKernelPort.c:405-427 | the loop goes on exactly while budget and lap are not used up |
| StackMonitor.Monitor.constructor | AVR_ATMega4809_MPLAB.X/TraceRecorder/trcKernelPort.c:358-401 | an empty table with the cursor at the first slot, of which all invariants hold |
| HandleStacks.LayoutExact | AVR_ATMega4809_MPLAB.X/TraceRecorder/trcKernelPort.c:1013-1034 | for all class sizes, the stored bounds delimit exactly each class's own objects if and only if the first class is not empty and the indices fit 16 bits |
| HandleStacks.TableAgrees | AVR_ATMega4809_MPLAB.X/TraceRecorder/trcKernelPort.c:970-1034 | for all class sizes, bounds and stored NumberOfObjectsPerClass describe every class if and only if, besides, every size fits the handle type |
| HandleStacks.CountTooSmall | AVR_ATMega4809_MPLAB.X/TraceRecorder/trcKernelPort.c:973-981 | with 8-bit handles a class of 300 objects is laid out but counted as 44 |
| HandleStacks.LengthsMislead | AVR_ATMega4809_MPLAB.X/TraceRecorder/trcKernelPort.c:970-1034 | sizes for which every range's length equals the stored count although the bounds have wrapped |
| HandleStacks.EmptyClassWraps | AVR_ATMega4809_MPLAB.X/TraceRecorder/trcKernelPort.c:1025 | empty first classes get the upper bound 65535 |
| HandleStacks.RangesContiguous | AVR_ATMega4809_MPLAB.X/TraceRecorder/trcKernelPort.c:1013-1034 | each range has as many entries as its class is configured to have objects, and starts where the one before ends |
| HandleStacks.RangesPartition | AVR_ATMega4809_MPLAB.X/TraceRecorder/trcKernelPort.c:1013-1034 | the nine ranges are disjoint and cover exactly 0 up to the total |
| HandleStacks.GetIsFresh | AVR_ATMega4809_MPLAB.X/TraceRecorder/trcSnapshotRecorder.c:2268-2318 | a class with a handle left gives one within 1..n that is not in use |
| HandleStacks.FreeReturns | AVR_ATMega4809_MPLAB.X/TraceRecorder/trcSnapshotRecorder.c:2320-2342 | a handle in use that is given back becomes available again, and the others stay in use |
| HandleStacks.ExhaustedGetSpills | AVR_ATMega4809_MPLAB.X/TraceRecorder/trcSnapshotRecorder.c:2281-2299 | asking an exhausted class gives 0, and leaves the non-empty class whose range follows unharmed if and only if its first entry was used before or the spilled value means the same |
| HandleStacks.WrappedGives | AVR_ATMega4809_MPLAB.X/TraceRecorder/trcSnapshotRecorder.c:2281-2303 | a class with no objects, nor any before it, gives out a handle and breaks its promise, or accesses memory outside the array |
| HandleStacks.EmptyClassGives | AVR_ATMega4809_MPLAB.X/TraceRecorder/trcSnapshotRecorder.c:2281-2303 | with an empty first class and one object in the second, the first class gives out handle 1 and then accesses the entry past the end |
| HandleStacks.GetInBounds | AVR_ATMega4809_MPLAB.X/TraceRecorder/trcSnapshotRecorder.c:2281-2292 | for all sizes, an empty first class included, a request stays inside the array if and only if the class has a handle left or some later class is not empty |
| HandleStacks.SecondRequestOverruns | AVR_ATMega4809_MPLAB.X/TraceRecorder/trcSnapshotRecorder.c:2281-2292 | a concrete run that accesses the entry past the end of the array |
| HandleStacks.EarlyFreeUnderruns | AVR_ATMega4809_MPLAB.X/TraceRecorder/trcSnapshotRecorder.c:2329-2341 | with 16-bit ints, a handle of the first class returned before any was given is written before the start of the array |
| HandleStacks.IntByNumber | AVR_ATMega4809_MPLAB.X/TraceRecorder/trcSnapshotRecorder.c:2271-2281 | a 16-bit index stored in an int is itself if the int is wider, and otherwise congruent modulo 2^16 within the signed range |
| HandleStacks.SharedHandle | AVR_ATMega4809_MPLAB.X/TraceRecorder/trcSnapshotRecorder.c:2282-2299 | a concrete run in which a class hands out the same handle twice |
| HandleStacks.PerformExactly | AVR_ATMega4809_MPLAB.X/TraceRecorder/trcSnapshotRecorder.c:2268-2342 | for all sizes, any request or return, with any class and handle, stays inside the array and keeps all nine classes' promises if and only if it is orderly: a condition on counters, one entry and the handles in use |
| HandleStacks.FreshExactly | AVR_ATMega4809_MPLAB.X/TraceRecorder/trcKernelPort.c:970-1034 | at the start all classes keep their promises if and only if every size fits the handle type |
| HandleStacks.AnswerIsFresh | AVR_ATMega4809_MPLAB.X/TraceRecorder/trcSnapshotRecorder.c:2292-2317 | such a request is refused exactly when all handles of the class are in use, and otherwise answered with one within 1..n that is not |
| HandleStacks.SafeExactly | AVR_ATMega4809_MPLAB.X/TraceRecorder/trcSnapshotRecorder.c:2268-2342 | a whole run keeps all promises at every step if and only if each of its operations is orderly when it is made |
| HandleStacks.RunsKeep | AVR_ATMega4809_MPLAB.X/TraceRecorder/trcSnapshotRecorder.c:2268-2342 | after any orderly run, handles in use are distinct, in range and as many as the stack is high, and the layout is as it was |
| HandleStacks.Recorder.constructor | AVR_ATMega4809_MPLAB.X/TraceRecorder/trcKernelPort.c:970-1034 | stores the narrowed counts and the bounds; next-available starts at each range's low end |
| HandleStacks.Recorder.GetObjectHandle | AVR_ATMega4809_MPLAB.X/TraceRecorder/trcSnapshotRecorder.c:2268-2318 | the array update, in the source's order, is the specified request, for every class; an access outside the array is reported as such |
| HandleStacks.Recorder.FreeObjectHandle | AVR_ATMega4809_MPLAB.X/TraceRecorder/trcSnapshotRecorder.c:2320-2342 | the array update is the specified return, with the subtraction in the target's int; wrong classes and handles change nothing |
| CriticalSections.NestExactly | AVR_ATMega4809_MPLAB.X/TraceRecorder/trcKernelPort.c:296-348 | for every tree of pairs and every state: all exits restore the mask and nesting their enters found if and only if each task-level pair opens where the mask is set exactly when inside a task's section |
| CriticalSections.EnterByNumber | AVR_ATMega4809_MPLAB.X/TraceRecorder/trcKernelPort.c:300-322 | for every status register value: low five bits 0x13 give type 3 or 2 as interrupts were masked or not, with the mask set and the nesting unchanged; others give 0 in the task switch, and otherwise 1 with the nesting one higher |
| CriticalSections.ExitByNumber | AVR_ATMega4809_MPLAB.X/TraceRecorder/trcKernelPort.c:329-347 | what each type from 0 to 3 makes exit do, and that any other hangs |
| CriticalSections.SectionsNest | AVR_ATMega4809_MPLAB.X/TraceRecorder/trcKernelPort.c:296-348 | from a state with the mask set exactly when nesting is positive, pairs of tasks, switch and handlers on top of them all restore |
| CriticalSections.InsideTaskAllNest | AVR_ATMega4809_MPLAB.X/TraceRecorder/trcKernelPort.c:317-322 | inside a task's section every nesting restores |
| CriticalSections.TaskBracketUnmasks | AVR_ATMega4809_MPLAB.X/TraceRecorder/trcKernelPort.c:331-333 | a task-level pair opened with the mask set but nesting zero leaves interrupts unmasked |
| CriticalSections.NeverHangs | AVR_ATMega4809_MPLAB.X/TraceRecorder/trcKernelPort.c:344-346 | the error loop of exit is unreachable |
| CriticalSections.RestoringProtects | AVR_ATMega4809_MPLAB.X/TraceRecorder/trcKernelPort.c:300-322 | where all pairs restore, interrupts are masked at every moment inside every handler's and every task's pair |
| CriticalSections.Port.EnterCritical | AVR_ATMega4809_MPLAB.X/TraceRecorder/trcKernelPort.c:296-325 | the classification in numbers, and never the invalid type |
| CriticalSections.Port.ExitCritical | AVR_ATMega4809_MPLAB.X/TraceRecorder/trcKernelPort.c:327-348 | undoes what the type says, and loops for ever exactly for an unknown type |
| Pipeline.CausalOrder | CORTEX_R82_SMP_MPU_FVP_GCC_ARMCLANG/main.c:146-214 | in every run, whatever queue operation fails, the Sent and Received lines handed out for logging are each numbered 0, 1, 2, ... modulo 2^64, the k-th Received line after k Sent lines, and the printed lines are the first of those the log queue took |
| Pipeline.PrintedExactly | CORTEX_R82_SMP_MPU_FVP_GCC_ARMCLANG/main.c:146-214 | below 2^64 lines, what is printed is itself in that order if and only if no lost line shows in a later printed one |
| LogOrder.LossExactly | CORTEX_R82_SMP_MPU_FVP_GCC_ARMCLANG/main.c:158 | for any ordered lines and any losses among them, the rest is in order if and only if no lost line shows in a later one |
| Pipeline.LostLineShows | CORTEX_R82_SMP_MPU_FVP_GCC_ARMCLANG/main.c:158 | a run in which a failed send to the log queue makes the log start with "Sent 1" |
| Pipeline.ReceivedLost | CORTEX_R82_SMP_MPU_FVP_GCC_ARMCLANG/main.c:158 | a run in which the loss of "Received 0" does not show |
| Pipeline.FailuresTold | CORTEX_R82_SMP_MPU_FVP_GCC_ARMCLANG/main.c:188-213 | in every run each failure of the task queue is logged once; a failed send names the number of messages sent so far, a failed receive the last one received |
| Pipeline.FailedFirst | CORTEX_R82_SMP_MPU_FVP_GCC_ARMCLANG/main.c:188-213 | runs in which either task's failure comes first and is printed |
| Pipeline.ReceivedFirst | CORTEX_R82_SMP_MPU_FVP_GCC_ARMCLANG/main.c:175-215 | for every configuration in which one message can be sent and logged, a run that prints "Received 0" before "Sent 0" |
| Pipeline.SentFirst | CORTEX_R82_SMP_MPU_FVP_GCC_ARMCLANG/main.c:175-215 | for every such configuration, a run that prints them the other way round |
| Pipeline.Conservation | CORTEX_R82_SMP_MPU_FVP_GCC_ARMCLANG/main.c:175-215 | in every run the number sent less the number received is the task queue's occupancy, which holds exactly the missing ids in order; neither queue exceeds its length |
| Pipeline.NoDeadlock | CORTEX_R82_SMP_MPU_FVP_GCC_ARMCLANG/main.c:162-215 | for all queue lengths of at least one, the three tasks are all blocked only if the sender has stopped and everything is printed |
| Pipeline.Drains | CORTEX_R82_SMP_MPU_FVP_GCC_ARMCLANG/main.c:158-215 | a sender that stops after n messages allows at most 9 n steps, and every maximal run prints exactly n Sent and n Received lines and empties both queues |
| Pipeline.StepWork | CORTEX_R82_SMP_MPU_FVP_GCC_ARMCLANG/main.c:158-215 | every step of any task does exactly one unit of the remaining work |
| Pipeline.StepInv | CORTEX_R82_SMP_MPU_FVP_GCC_ARMCLANG/main.c:158-215 | counters, queues, lines in hand and the printed log agree after every step |
| Pipeline.Demo.SenderTask | CORTEX_R82_SMP_MPU_FVP_GCC_ARMCLANG/main.c:175-194 | each turn of the sender is one step: send, log the id just sent, delay |
| Pipeline.Demo.SenderTaskFails | CORTEX_R82_SMP_MPU_FVP_GCC_ARMCLANG/main.c:188-191 | a failed send logs the id without advancing the counter |
| Pipeline.Demo.ReceiverTask | CORTEX_R82_SMP_MPU_FVP_GCC_ARMCLANG/main.c:196-209 | each turn of the receiver is one step: receive the oldest message, log it |
| Pipeline.Demo.ReceiverTaskFails | CORTEX_R82_SMP_MPU_FVP_GCC_ARMCLANG/main.c:210-213 | a failed receive logs what the counter last held |
| Pipeline.Demo.LoggerTask | CORTEX_R82_SMP_MPU_FVP_GCC_ARMCLANG/main.c:162-173 | each turn of the logger is one step: fetch the oldest line, print it |
| Pipeline.Demo.RunToEnd | CORTEX_R82_SMP_MPU_FVP_GCC_ARMCLANG/main.c:162-215 | scheduling any ready task for as long as there is one terminates, with n Sent and n Received lines printed unless a line was lost before |
| Pipeline.Demo.LogMsg | CORTEX_R82_SMP_MPU_FVP_GCC_ARMCLANG/main.c:146-159 | a line reaches the log queue or is lost, and the caller goes on alike |
| LogMessage.TinyStrnlen | CORTEX_R82_SMP_MPU_FVP_GCC_ARMCLANG/main.c:129-144 | zero for NULL, otherwise the length up to the terminator or the bound, never reading past either |
| LogMessage.TinyMemCpy | CORTEX_R82_SMP_MPU_FVP_GCC_ARMCLANG/main.c:119-127 | copies exactly the first count bytes and leaves the rest of the destination |
| LogMessage.FillText | CORTEX_R82_SMP_MPU_FVP_GCC_ARMCLANG/main.c:146-154 | the text field reads as the message (empty for NULL), cut to the field less one, and is always terminated |
| Isolation.Isolated | CORTEX_R82_SMP_EXTENDED_MPU_FVP_GCC_ARMCLANG/main.c:180-287 | in every run flash is as loaded, no task gains privilege, each task's messages are a prefix of its fixed script, and a recovering task was refused at the one access it is not allowed |
| Isolation.StepWrites | CORTEX_R82_SMP_EXTENDED_MPU_FVP_GCC_ARMCLANG/main.c:210-269 | a task's step changes nothing but its own stack, a kernel store nothing but privileged RAM |
| Isolation.StackIsOwn | CORTEX_R82_SMP_EXTENDED_MPU_FVP_GCC_ARMCLANG/main.c:242-251 | a task's stack is unchanged over any stretch of a run in which that task does not act |
| Isolation.RamIsKernels | CORTEX_R82_SMP_EXTENDED_MPU_FVP_GCC_ARMCLANG/main.c:216-228 | privileged RAM is unchanged over any stretch without kernel stores, whatever the tasks attempt |
| Isolation.ActOutcome | CORTEX_R82_SMP_EXTENDED_MPU_FVP_GCC_ARMCLANG/main.c:210-269 | the actions before a script's faulting one succeed, a store among them changing memory exactly at its address; the faulting one is refused at the forbidden address and sends the task to recovery with memory unchanged |
| Isolation.StoresMade | CORTEX_R82_SMP_EXTENDED_MPU_FVP_GCC_ARMCLANG/main.c:242 | a permitted store, by a task or by the kernel, changes memory exactly at its address; the second task's own store leaves 0xDEADBEEF |
| Isolation.StoresPossible | CORTEX_R82_SMP_EXTENDED_MPU_FVP_GCC_ARMCLANG/main.c:242 | until it is deleted, and only until then, a task can store anywhere on its stack; the kernel can in its RAM |
| Isolation.SaidIsDone | CORTEX_R82_SMP_EXTENDED_MPU_FVP_GCC_ARMCLANG/main.c:238-243 | whenever the second task has said that it accessed its own stack, the value is there, unless its own stack use has overwritten it |
| Isolation.Rights | CORTEX_R82_SMP_EXTENDED_MPU_FVP_GCC_ARMCLANG/main.c:283-287 | an unprivileged task reads and writes its stack and the shared region, only reads flash, and has no access to privileged RAM or another stack |
| Isolation.StoreWouldRaise | CORTEX_R82_SMP_EXTENDED_MPU_FVP_GCC_ARMCLANG/main.c:228 | had the first task's store been let through, it would be privileged and might write anywhere |
| Isolation.DeletedIsFinal | CORTEX_R82_SMP_EXTENDED_MPU_FVP_GCC_ARMCLANG/main.c:201-207 | a deleted task takes no further step and says nothing more |
| Isolation.RunsAreBounded | CORTEX_R82_SMP_EXTENDED_MPU_FVP_GCC_ARMCLANG/main.c:180-269 | an explicit measure bounds the steps of tasks and logger in every run |
| Isolation.Completed | CORTEX_R82_SMP_EXTENDED_MPU_FVP_GCC_ARMCLANG/main.c:180-269 | when nothing can move, every task is deleted after its whole script, ending in its recovery message, and all is printed |
| Isolation.DataAbortRecovers | CORTEX_R82_SMP_EXTENDED_MPU_FVP_GCC_ARMCLANG/main.c:538-547 | a data abort from a lower level goes to recovery, whatever its detail bits |
| Isolation.RouteByNumber | CORTEX_R82_SMP_EXTENDED_MPU_FVP_GCC_ARMCLANG/main.c:538-554 | class 0x24 recovers, class 0x15 is a system call, any other loops |
| Isolation.Processor.AppFaultHandler | CORTEX_R82_SMP_EXTENDED_MPU_FVP_GCC_ARMCLANG/main.c:527-559 | the syndrome ranges of the three targets in numbers; only a data abort redirects the return state; registers and stack are as the interrupted code left them unless the handler loops |
| Isolation.Demo.TaskRuns | CORTEX_R82_SMP_EXTENDED_MPU_FVP_GCC_ARMCLANG/main.c:180-269 | one action of a task, permitted or aborted, is one step of the specification and keeps the invariant |
| Isolation.Demo.LoggerPrints | CORTEX_R82_SMP_EXTENDED_MPU_FVP_GCC_ARMCLANG/main.c:171-177 | the logger prints the oldest message not yet printed |
| Isolation.Demo.RunToEnd | CORTEX_R82_SMP_EXTENDED_MPU_FVP_GCC_ARMCLANG/main.c:180-269 | running tasks and logger in any interleaving terminates with every task deleted after its whole script and everything printed |
| Isolation.Demo.constructor | CORTEX_R82_SMP_EXTENDED_MPU_FVP_GCC_ARMCLANG/main.c:275-333 | three unprivileged tasks at the start of their scripts |
| PingPong.Safe | RP2350_SMP_GCC/main.c:63-116 | in every run at most one task is between take and give, Ping and Pong strictly alternate starting with Ping, and unless a flag write is pending the number of Pings less that of Pongs is the flag |
| PingPong.RoundPrints | RP2350_SMP_GCC/main.c:70-113 | between its take and its give, whatever the others do, a player prints exactly one line and flips the flag if the flag was its own value, and otherwise neither; the bouncing task prints exactly one line |
| PingPong.RallyGrows | RP2350_SMP_GCC/main.c:63-101 | once both players have ended two rounds, a Ping or a Pong has been printed |
| PingPong.BouncingPrints | RP2350_SMP_GCC/main.c:103-116 | over any run the bouncing task prints one line for each round it ends |
| PingPong.EveryoneCanGo | RP2350_SMP_GCC/main.c:63-116 | from every moment of a run every task can go on to end a round |
| PingPong.HeldUpByHolder | RP2350_SMP_GCC/main.c:70 | a task is held up only while another one holds the mutex, and that one can go on |
| PingPong.StepInv | RP2350_SMP_GCC/main.c:63-116 | holder, flag, positions and printed lines agree after every step of any task |
| PingPong.AlternatesCounts | RP2350_SMP_GCC/main.c:72-77 | in an alternating record Pings exceed Pongs by the parity of its length |
| PingPong.HolderProgresses | RP2350_SMP_GCC/main.c:70-80 | the holder can always go on, gives the mutex back after at most four steps of its own, and no other task's step disturbs it |
| PingPong.Demo.Go | RP2350_SMP_GCC/main.c:63-116 | one step of a task on mutex, flag and console is one step of the specification and keeps the invariant |
| BringUp.BootOrder | RP2350_SMP_GCC/main.c:118-170 | in every run of both cores, with the wake-up hook called at any further times, every action comes after all those the documented boot sequence puts before it; core 1 is launched once for each call of the hook after initialisation, and every action comes once if and only if there is at most one such call |
| BringUp.SecondLaunch | RP2350_SMP_GCC/main.c:294-308 | a run in which a call of the hook before the port's own makes the port launch a running core |
| BringUp.LaunchGuarded | RP2350_SMP_GCC/main.c:294-308 | core 1 is launched only after shared initialisation with a doorbell claimed, and never when main has failed |
| BringUp.HookReports | RP2350_SMP_GCC/main.c:294-308 | the hook returns success exactly when it has made a launch, which is exactly when initialisation is done |
| BringUp.MainFails | RP2350_SMP_GCC/main.c:127-167 | main fails exactly when a creation fails; nothing has been launched then, and nothing happens any more |
| BringUp.DoorbellKept | RP2350_SMP_GCC/main.c:276-292 | the doorbell number is the one claimed, to the end of every run |
| BringUp.GuardSuffices | RP2350_SMP_GCC/main.c:294-308 | from any state, whatever calls the hook and when, its own guard keeps core 1 in the boot ROM until initialisation is done |
| BringUp.BothStart | RP2350_SMP_GCC/main.c:310-325 | the two cores never wait for each other for ever: when neither can go on, both are scheduling, main has failed, or core 1 has been launched twice |
| BringUp.RunsAreBounded | RP2350_SMP_GCC/main.c:118-170 | no run takes more steps than the two cores have ahead, further calls of the hook aside |
| BringUp.StepMarks | RP2350_SMP_GCC/README.md:111-126 | each step but a call of the hook makes exactly one new mark and moves one core up to that mark's rank |
| BringUp.HookMarks | RP2350_SMP_GCC/main.c:294-308 | a call of the hook adds a launch after initialisation and nothing before |
| BringUp.BeforeIsDone | RP2350_SMP_GCC/README.md:111-126 | a core reaching a mark's rank finds all that must precede the mark done |
| BringUp.Board.RunPrimary | RP2350_SMP_GCC/main.c:118-170 | one step of main or of the port's scheduler start is one step of the specification and keeps the invariant |
| BringUp.Board.WakeSecondaryCore | RP2350_SMP_GCC/main.c:294-308 | the hook launches core 1 exactly when the flag is set, running or not, and returns the flag |
| BringUp.Board.Boot | RP2350_SMP_GCC/main.c:118-170 | with no call of the hook but the port's, running both cores in any interleaving terminates with both scheduling in the documented order, or with a failed main |
| BringUp.Board.RunSecondary | RP2350_SMP_GCC/main.c:310-325 | one step of core 1's entry function is one step of the specification and keeps the invariant |
| RunTimeCounter.Linearizable | AVR_ATMega4809_MPLAB.X/main_cli.c:144-172 | with at most one tick unserviced during the call, the result is the true cycle count at the timer read it used, less whole cycles of the 16-bit tick count |
| RunTimeCounter.CongruentToTime | AVR_ATMega4809_MPLAB.X/main_cli.c:144-172 | so it is congruent to the true count modulo 65536 tick periods |
| RunTimeCounter.MeasuresElapsedTime | AVR_ATMega4809_MPLAB.X/main_cli.c:144-172 | until the tick count wraps, successive results never decrease and their difference is the time between their instants |
| RunTimeCounter.RightExactly | AVR_ATMega4809_MPLAB.X/main_cli.c:144-172 | with any number of ticks unserviced, the result is right modulo 65536 ticks if and only if no tick is seen pending, or one tick, or a multiple of 65536 more, is unserviced |
| RunTimeCounter.OneCorrectionOnly | AVR_ATMega4809_MPLAB.X/main_cli.c:159-165 | the half of it for calls that see a tick pending |
| RunTimeCounter.TwoTicksPending | AVR_ATMega4809_MPLAB.X/main_cli.c:159-165 | a call with two ticks unserviced returns a value one tick short |
| RunTimeCounter.ConfiguredRatesFit | AVR_ATMega4809_MPLAB.X/FreeRTOSConfig.h:54-65 | no 32-bit overflow at any clock rate the configuration offers |
| RunTimeCounter.ConfiguredPeriods | AVR_ATMega4809_MPLAB.X/FreeRTOSConfig.h:54-65 | the cycles of a tick at each clock rate the configuration offers |
| RunTimeCounter.CombineExactly | AVR_ATMega4809_MPLAB.X/main_cli.c:167-169 | the 32-bit result is the sum modulo 2^32, and exact if and only if it fits |
| RunTimeCounter.Clock.GetRunTimeCounterValue | AVR_ATMega4809_MPLAB.X/main_cli.c:144-172 | the reads and arithmetic in the source's order give that result at an instant within the call |
| PendedCalls.InStepExactly | CORTEX_M35P_FAST_MODEL_BLINKY_GCC/main_full.c:577-596 | over any run of producer, other producers and daemon with any queue length, all assertions hold if and only if each executed call has a multiple of 2^32 refused requests before it |
| PendedCalls.InStep | CORTEX_M35P_FAST_MODEL_BLINKY_GCC/main_full.c:577-596 | below 2^32 requests they hold if and only if no executed call follows a refused request |
| PendedCalls.RefusalFails | CORTEX_M35P_FAST_MODEL_BLINKY_GCC/main_full.c:577-596 | a run in which a refused request makes the next call fail |
| PendedCalls.CountersApart | CORTEX_M35P_FAST_MODEL_BLINKY_GCC/main_full.c:646-659 | the two producer counters always differ by 1000, and the two assertions of a call never disagree |
| PendedCalls.RefusedWhenFull | CORTEX_M35P_FAST_MODEL_BLINKY_GCC/main_full.c:646-659 | a command is refused exactly when the queue is full, and otherwise waits behind all others |
| PendedCalls.ServeDrains | CORTEX_M35P_FAST_MODEL_BLINKY_GCC/main_full.c:577-596 | left to itself the daemon empties the queue, and then every accepted request has been called |
| PendedCalls.NumberIsRefusals | CORTEX_M35P_FAST_MODEL_BLINKY_GCC/main_full.c:646-659 | the i-th accepted request is number i plus the refusals before it |
| PendedCalls.RunInv | CORTEX_M35P_FAST_MODEL_BLINKY_GCC/main_full.c:577-659 | queue, counters and the record of assertions agree with the accepted requests after every run |
| PendedCalls.Demo.DemonstratePendingFunctionCall | CORTEX_M35P_FAST_MODEL_BLINKY_GCC/main_full.c:646-659 | both counters advance, and the call is pended only if the queue has room |
| PendedCalls.Demo.PendedFunction | CORTEX_M35P_FAST_MODEL_BLINKY_GCC/main_full.c:577-596 | reports whether each assertion holds and remembers the parameters |
| PendedCalls.Demo.Serve | CORTEX_M35P_FAST_MODEL_BLINKY_GCC/main_full.c:577-596 | the daemon takes the oldest command and performs it, keeping the invariant |

## Left out

- Kernel internals: the scheduler, queues, mutexes, timers and the heap are small specifications; priorities, time slicing and delays are covered by letting any enabled task take the next step.
- Register test: compiler prologues and the register used by the error variable's address; only the zero flag of SREG is modelled, no other flag being read by the programs; interrupt handlers are covered by arbitrary use of the processor between switches.
- Memory functions: pointer values are array indices, so wrap-around of addresses is not modelled; each loop of memmove and memset is a method of its own.
- Handles: what an access outside the array reads or overwrites; the model says exactly when one happens and stops there. Configurations whose indices do not fit a positive int are covered by LayoutExact and TableAgrees only. The recorder's assertions are on, as configured; its high-water-mark statistics and the stop that an error causes are not modelled.
- StackMonitor: the counter of tasks not included and the cursor are unbounded integers; the stack samples are arbitrary; a single turn of the scan's loop is one step, so a removal between its reading of a slot and its report is not modelled.
- CriticalSections: interrupts arriving while unmasked are represented only by the brackets their handlers execute; the port's assertion inside vPortEnterCritical is not modelled.
- Pipeline.Drains: queue operations do not report failure in that result, as their wait is unlimited; the other results about runs allow any queue operation of sender and receiver to fail at any time. The logger only takes a line when there is one.
- Log messages: the core number printed with each line is not modelled; the advanced pointer that prvTinyMemCpy returns is not used by any caller.
- Isolation: the value the first task would have stored besides the privilege bit (its load is refused); MPU region alignment and granularity, and stores by the kernel to the tasks' privilege flags (there are none in the demo); memory is modelled as one value per address.
- BringUp: the port's part of the start-up is taken from the demo's README; what a second launch does to a running core is not modelled, and runs end there; stdio and the doorbell's clearing are not modelled, and a doorbell claim that cannot be met stops the program before anything below it.
- RunTimeCounter: the tick interrupt is held off during a call, as the source's comment says, so the tick count does not change between its readings.
- PendedCalls: a failing assertion stops the daemon in the source; the model records it and goes on, so the source's run is the model's run up to the first failure. Counters wrap at 32 bits, the width of a pointer on that processor.
- Queue space demonstration (prvDemoQueueSpaceFunctions), blinky, tickless, trace, PAC and BTI demos, LED helpers, check-task latches: not modelled.
- Peripheral set-up, streaming transport of the recorder, configuration headers: no semantics visible in the source.
- Copies of the same file in sibling directories: one of each is modelled.
