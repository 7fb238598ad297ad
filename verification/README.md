# Verified model of tinyco

tinyco is a C++ server framework built on coroutines. This project models its hardest parts in
Dafny and proves what they keep over every run:

- the **coroutine scheduler** (`frame.cc`, `thread.h`): a run list, a pool of free threads, a heap
  of sleepers, a map of threads waiting for descriptors, and a main loop that runs when nobody else
  can;
- the **accept lock** shared by worker processes, with the master that reaps dead workers, unlocks
  on their behalf and forks replacements (`mutex.cc`, `server.h`, `server.cc`);
- the **byte streams**: the two nested send loops and the keep-alive HTTP receive loop;
- and four smaller loops: connection tracking, the RPC mapping text, DNS round robin, log rotation.

`dafny verify dfyconfig.toml` checks everything.

## How it is organised

| file | content |
|---|---|
| `Basics.dfy` | shared notions: machine integers, absence of duplicates |
| `SleeperHeap.dfy` | `push_heap` and `pop_heap` with the contracts of section 25.4.6 of ISO/IEC 14882:2011 |
| `Scheduler.dfy` | the scheduler as a machine over values, its invariant, and that every step keeps it |
| `SchedulerRuns.dfy` | theorems over whole runs of that machine |
| `LoopTimeout.dfy` | how long the event loop may block, and that over runs |
| `Frame.dfy` | the scheduler as implemented: a class whose methods refine the machine |
| `AcceptLock.dfy`, `AcceptLockRuns.dfy` | the lock protocol as a transition system, and theorems over its runs |
| `AcceptLockProgress.dfy` | that workers get free locks and stay in their loops, and that the master's walk ends |
| `AcceptLockFailures.dfy` | runs in which it fails, when a condition of the theorems does not hold or an accept fails |
| `Mutex.dfy`, `Supervisor.dfy` | the lock operations and the master's loops as implemented |
| `SendLoops.dfy`, `HttpReceive.dfy` | the byte streams |
| `ConnTracker.dfy`, `Text.dfy`, `RpcMapping.dfy`, `RoundRobin.dfy`, `LogRotation.dfy` | the smaller parts |

The scheduler machine forgets how sleepers are stored: they are a map from thread to deadline, and
threads of equal deadline may wake in either order. Class `Frame.Frame` keeps them in a heap; each
of its methods is proved to be a step of the machine, so the theorems about runs of the machine are
theorems about the program. The lock protocol has no such class for the whole system, because its
steps belong to different processes: it is a transition system whose steps are single reads and
writes of a shared word, and class `Mutex.AtomicMtx` ties the uninterrupted operations to them.

## Assumptions

- A parked coroutine resumes just after the call of `Schedule()` that parked it. Clock readings never
  go backwards and are below 2^63 ms. libevent calls back only for registered events; the callback
  breaks the event loop (`frame.cc:408`), so at most one runs in a pass.
- Each `Work` is handed to `CreateThread` once, as the deletion in `HandleProcess` demands.
- The compare-and-set of TryLock is modelled both as one step and, for the assembly at `mutex.cc:59` that
  has no `lock` prefix, as a load and a later store. The theorems ask that such a store is clean: the word
  is 0 then, or names a dead worker whom the master is not just about to clear. `AcceptLockRuns.SafeExactly`
  shows that nothing less keeps the protocol safe. The compare-and-set of Unlock is one step; the word is the
  caller's pid all the while it holds the lock (`AcceptLockRuns.NamedExactlyWhileHolding`).
- A new process never gets the pid of a running process or zombie. Exclusion needs in addition that it
  does not get a pid the master has queued and not yet walked over; `AcceptLockFailures.ReusedPidBreaksExclusion`
  shows that it fails without. The account of the worker slots needs that it gets no pid of another
  slot, which is more: a slot given up after a failed fork keeps its old pid.
- The master does not yield while it walks its restart queue.
- The HTTP framing check recognises a message by its own bytes. File operations of the log succeed.

## Where the code does not do what it seems to promise

Unless said otherwise each has a condition under which the promise holds, proved to be exact, and a lemma
or a clause of a contract about inputs where it fails.

- A second coroutine waiting for the same descriptor loses the first one for ever, and the run list
  then receives a null pointer (`frame.cc:232`, `frame.cc:406`).
- The event loop is given the time to the earliest deadline as its timeout only below 2^31 ms; above,
  the timeout is larger than 2^63 ms (`frame.cc:129`).
- `TcpConn::Send` returns 0 for a buffer of 2^31 bytes or more without having sent it, and for exactly
  2^31 bytes whatever the kernel replies and with nothing sent (`http/tcp_conn.cc:153`).
- After serving a request that was followed by more bytes, the HTTP loop counts the served bytes again,
  and when the count exceeds the buffer the next read is told to write past its end
  (`http/http_server.cc:40-41`, `http/http_server.cc:56-57`).
- The second of two requests that arrive together is answered only when more bytes arrive, even if it is
  complete (`http/http_server.cc:40-63`).
- A thread wrapper reads "not dead" again, though its work is done, once a later `CreateThread` hands out
  the same thread (`thread.h:84`).
- The address picks are unfair when the 32-bit counter wraps, unless the list length divides 2^32 or
  the picks before the wrap are whole turns (`dns/dns_resolve_impl.h:32`).
- An empty RPC mapping text is an error, since splitting it yields one empty entry
  (`util/string.cc:24`, `server.cc:151`).
- A worker whose accept fails leaves its loop with the lock and keeps it until its process dies
  (`server.h:103-106`); one that leaves its loop in the other way never does.
- Two workers hold the lock at once if the store of a compare-and-set that is not atomic overwrites the
  name of a running worker, and can do so if it overwrites that of a dead one just before the master
  clears the word (`mutex.cc:59`).
- Keep-alive is never withdrawn, so without pipelining the HTTP loop ends after a request exactly if the
  first does not ask for it (`http/http_tool.cc:106-113`).

## Model

| member | source | states |
|---|---|---|
| SleeperHeap.PushHeap | frame.cc:473-477 | adding the last element keeps a min-heap on wake-up time and permutes the elements |
| SleeperHeap.PopHeap | frame.cc:93-99 | the front moves to the back, the others stay a heap, and nothing else enters or leaves |
| SleeperHeap.FrontIsEarliest | frame.cc:121 | the front of the vector has the earliest wake-up time of all sleepers |
| Scheduler.InitHolds | frame.cc:34-57 | the state after initialisation, with its pool of 1000 threads, satisfies the invariant |
| Scheduler.ScheduleKeeps | frame.cc:450-459 | choosing who runs next keeps every thread in exactly one place and every work run at most once |
| Scheduler.CreateReusesOnlyFinished | frame.cc:428-448 | a thread handed out was never used or has finished, so no suspended coroutine's context is overwritten |
| Scheduler.CreateKeeps | frame.cc:437-448 | creating a thread keeps the invariant |
| Scheduler.ParkAsleepKeeps | frame.cc:461-471 | going to sleep keeps the invariant, including the bound of all deadlines by clock + 2^32 |
| Scheduler.ParkWaitingKeeps | frame.cc:229-235 | waiting for a descriptor nobody waits for keeps the invariant; registered events match waiters one to one |
| Scheduler.RecycleKeeps | frame.cc:411-426 | finishing a work keeps the invariant: deleted once, after it ran, its thread pooled and dead |
| Scheduler.FireKeeps | frame.cc:403-409 | an event callback keeps the invariant |
| Scheduler.WakeKeeps | frame.cc:101-115 | waking sleepers keeps the invariant |
| Scheduler.NextKeeps | frame.cc:403-477 | every step of the scheduler keeps the whole invariant, given one waiter per descriptor |
| SchedulerRuns.EveryStateIsGood | frame.cc:403-477 | in every state of every run, each thread ever allocated is in exactly one of run list, pool, sleepers, waiters or control, once; the run list holds no null |
| SchedulerRuns.KeptExactlyByOneWaiter | frame.cc:232-235 | the invariant survives a step if and only if the step waits for no descriptor already waited for |
| SchedulerRuns.SecondWaiterLosesFirst | frame.cc:232 | a second wait on a descriptor drops the first waiter out of every place and leaves two events |
| SchedulerRuns.LostForever | frame.cc:232 | a thread out of every place never runs again in any continuation, disciplined or not |
| SchedulerRuns.SecondWaiterQueuesNull | frame.cc:406 | a run from the start in which control passes to the null thread, when two coroutines wait for one descriptor |
| SchedulerRuns.DispatchIsFifo | frame.cc:437-471 | over any stretch of any run, threads dispatched plus those still listed are those listed at the start plus those enqueued, in order |
| SchedulerRuns.RoundDispatchesAllOnce | frame.cc:82-91 | between leaving and regaining control the main loop sees dispatched, in order and once, exactly the threads that were ready and those created meanwhile; the number of steps is exact |
| SchedulerRuns.RoundIsBounded | frame.cc:437-471 | an exact measure of the steps left while control is away, which bounds every round by the threads created |
| SchedulerRuns.RunningIsKnown | frame.cc:411-471 | in every state the running thread is the one in control, or, while the main loop has control, null or a thread that waits for a descriptor |
| SchedulerRuns.WakesAtFirstDuePass | frame.cc:82-115 | a sleeper stays asleep with an unchanged deadline until the first pass stamped at or after it, and that pass wakes it: never early, never skipped |
| SchedulerRuns.EarlierWakesFirst | frame.cc:101-115 | of two sleepers that a pass wakes, the one due earlier is enqueued earlier |
| SchedulerRuns.ParkedIsStopped | frame.cc:229-235 | in every state of a run from the start, threads asleep or waiting read stopped |
| SchedulerRuns.StepReadsStopped | frame.cc:105-110 | a step keeps that, and a woken thread reads runnable |
| SchedulerRuns.PassFindsDeadlinesWithin | frame.cc:461-465 | if all sleeps of a run are below a bound, every pass finds every deadline less than the bound ahead |
| SchedulerRuns.FiringWakesItsWaiter | frame.cc:229-235 | from its wait to the first firing of its descriptor a coroutine is the waiter with one event registered; the firing enqueues precisely it and leaves neither |
| SchedulerRuns.WorkRunsOnceThenIsDeleted | frame.cc:411-420 | when a work is deleted it had begun and was not deleted before; ever after it is over and no work ran or was deleted twice |
| SchedulerRuns.WrapperReadsDeadIffPooled | thread.h:81-89 | from being handed out on, a thread reads dead exactly while it is in the pool |
| SchedulerRuns.ReadsDeadExactlyUntilHandedOut | thread.h:81-89 | from the end of its work on, a thread reads dead in every state if and only if no thread created since is the same |
| SchedulerRuns.WrapperReadsAliveAgain | thread.h:84 | a run from the start in which a work is deleted and the wrapper of its thread reads alive, for the next work |
| Frame.Frame.constructor | frame.cc:34-57 | the initial object is valid and is the machine's initial state |
| LoopTimeout.NarrowedDelta | frame.cc:129-131 | an `int` holding a difference below 2^32 and widened again is exact below 2^31 and off by 2^64 - 2^32 above |
| LoopTimeout.TimeoutExactly | frame.cc:117-134 | the timeout, as a function of sleepers and timestamp, is the time to the earliest deadline if and only if that is below 2^31 ms |
| LoopTimeout.PassTimeoutExactly | frame.cc:82-91 | the same for every pass of every disciplined run, and otherwise the pass is given a timeout of more than 2^63 ms |
| LoopTimeout.ShortSleepsAreNotOverslept | frame.cc:461-465 | if all sleeps of a run are below 2^31 ms, every pass is given the time to the earliest deadline as its timeout, or 100 ms without sleepers, and so ends past no deadline |
| LoopTimeout.LongSleepIsOverslept | frame.cc:129 | a run from the start in which one sleep of 2^31 ms gives the next pass a timeout far beyond it |
| Frame.Frame.GetEventLoopTimeout | frame.cc:117-134 | computes that timeout, normalised, from the front of the heap |
| Frame.Frame.AllocNewThread | frame.cc:428-435 | takes the last pooled thread or a new one |
| Frame.Frame.CreateThread | frame.cc:437-448 | refines the machine's creation step and stays valid |
| Frame.Frame.Schedule | frame.cc:450-459 | refines the machine's choice of who runs next |
| Frame.Frame.PendThread | frame.cc:473-477 | the vector stays a heap without repetition and gains exactly this thread and deadline |
| Frame.Frame.Sleep | frame.cc:461-471 | refines the machine's sleep step and stays valid |
| Frame.Frame.WaitFor | frame.cc:229-235 | refines the machine's wait step, and stays valid if and only if nobody waited for the descriptor |
| Frame.Frame.FinishWork | frame.cc:411-426 | refines the machine's finish step, with its recycling of the thread, and stays valid |
| Frame.Frame.SocketReadOrWrite | frame.cc:403-409 | refines the machine's firing |
| Frame.Frame.PopPendingTop | frame.cc:93-99 | removes exactly one sleeper, of minimal wake-up time, and leaves a heap |
| Frame.Frame.WakeupPendingThread | frame.cc:101-115 | moves exactly the sleepers due at the loop's timestamp to the run list, in order of deadline |
| Frame.Frame.MainThreadLoopPass | frame.cc:82-91 | refines the machine's pass, stays valid, and gives the event loop the timeout of the sleepers it finds |
| AcceptLock.NextKeepsSafe | mutex.cc:88-105 | every step of workers and master keeps what exclusion rests on, given clean stores and no new pid still queued |
| AcceptLock.NextKeeps | server.cc:347-444 | every step keeps the account of the worker slots as well, given new pids in no other slot |
| AcceptLock.ReapedIsWorker | server.cc:428-441 | a reaped process is always in the table, so the placeholder 0 is never queued |
| AcceptLock.EntryIsCleared | server.cc:354-379 | when the replacement is forked the queued pid has a slot and no word names it |
| AcceptLockRuns.EveryStateIsSafe | server.cc:354-379 | what exclusion rests on holds in every state of every run with clean stores and no new pid still queued |
| AcceptLockRuns.EveryStateIsGood | server.cc:354-379 | the whole invariant holds in every state of every run with clean stores and new pids in no other slot |
| AcceptLockRuns.GoodRunIsSafe | server.cc:363-374 | the second condition on runs implies the first |
| AcceptLockRuns.MutualExclusion | server.h:91-108 | for any number of workers and listeners and any interleaving with deaths, forced unlocks and forks, at most one running worker is between TryLock and Unlock of a listener |
| AcceptLockRuns.WordNamesItsHolder | mutex.cc:88-105 | a nonzero word names the one worker that locked and did not unlock: running, or dead and yet to be cleared |
| AcceptLockRuns.UnlockSucceeds | mutex.cc:93-96 | the Unlock of a holder always finds its own pid and frees the lock |
| AcceptLockRuns.ForcedUnlockIsSafe | mutex.cc:98-105 | whatever happens between its read and its store, a forced unlock frees the lock of the dead worker it found and of nobody running |
| AcceptLockRuns.WalkLeavesNothing | server.cc:354-381 | after a walk every slot's worker runs, is unreaped or was given up, and no reaped worker's lock remains |
| AcceptLockRuns.NamedExactlyWhileHolding | server.h:91-108 | a running worker is named by the word if and only if it is between TryLock and Unlock |
| AcceptLockRuns.FailedAcceptKeepsLock | server.h:103-106 | a worker whose accept failed is named by the word as long as it runs, and nobody else holds the lock |
| AcceptLockRuns.KeepsLockExactlyIfAcceptFailed | server.h:103-133 | after leaving its accept loop a worker keeps the lock while it runs if and only if it left by the failed accept |
| AcceptLockFailures.FailedAcceptShutsOut | server.h:103-106 | a run to a failed accept, after which the other worker reads the word in vain |
| AcceptLockProgress.FreeLockIsGot | mutex.cc:88-91 | from a free word reading and comparing-and-setting, in one step or two, ends with the lock held and this word only set to the caller's pid |
| AcceptLockProgress.HeldLockIsRefused | mutex.cc:88-91 | a held lock is left as it is and the worker tries again |
| AcceptLockProgress.LockCycle | server.h:91-108 | locking a free lock and unlocking it gives back the very same state, from which it can be locked again |
| AcceptLockProgress.WorkerCanMove | server.h:82-133 | at every point of its loop a worker's next steps are possible |
| AcceptLockProgress.NewWorkerIsInLoop | server.cc:383-395 | a new worker is about to try the lock of every listener |
| AcceptLockProgress.StaysInLoop | server.h:82-133 | while its process runs, a worker is in its accept loop up to a failed accept or to leaving it with the lock free |
| AcceptLockProgress.RunsUntilItDies | server.cc:354-379 | a worker runs until it dies |
| AcceptLockProgress.MasterCanMove | server.cc:347-444 | outside its walk the master can reap every zombie; in its walk exactly one step is possible, but for what fork returns |
| AcceptLockProgress.WalkIsBounded | server.cc:354-381 | however the workers interleave, a walk over n entries takes at most n * (2 * listeners + 1) steps before its last |
| AcceptLockRuns.WorkersConserved | server.cc:347-444 | slots are as many as workers running, unreaped, queued and given up, in every state |
| AcceptLockRuns.SlotsStay | server.cc:111-120 | after the first forks the number of slots never changes |
| AcceptLockRuns.WalkForksOncePerEntry | server.cc:354-381 | a walk forks exactly once for each entry queued when it began, so clearing the queue loses none |
| AcceptLockRuns.SafeExactly | mutex.cc:55-91 | a step keeps what exclusion rests on if and only if it hands out no pid still queued and, if it is the store of a compare-and-set in two steps, is clean |
| AcceptLockRuns.UncleanStore | mutex.cc:55-65 | a store over the name of a running worker makes two holders at once; over one the master is about to clear, it makes the master clear a running worker's word |
| AcceptLockRuns.KeptExactlyByFresh | server.cc:368-374 | a fork keeps the account of the slots if and only if the new pid is in no other slot |
| AcceptLockFailures.UnlockedCompareAndSetBreaksExclusion | mutex.cc:55-65 | with a compare-and-set in two steps two workers reach the lock |
| AcceptLockFailures.StoreBeforeClearBreaksExclusion | mutex.cc:98-105 | a run in which the store comes between the master's read and clearing of a dead worker's word, and two workers hold the lock |
| AcceptLockFailures.ReusedPidBreaksExclusion | server.cc:363-374 | with a queued pid handed out again a forced unlock frees a running worker's lock and two workers hold it |
| Mutex.AtomicMtx.TryLock | mutex.cc:88-91 | returns 0 exactly if the word was 0, and then stores the caller's pid; uninterrupted, it is the protocol's read and compare-and-set |
| Mutex.AtomicMtx.Unlock | mutex.cc:93-96 | returns 0 exactly if the word was the caller's pid, and then stores 0; uninterrupted, it is the protocol's unlock |
| Mutex.AtomicMtx.ForcedUnlockIfNeed | mutex.cc:98-105 | stores 0 exactly if the word was the given pid; uninterrupted, it is the protocol's check and clear |
| Supervisor.ReapedExactly | server.cc:413-425 | interruptions are passed over, and the first other reply decides whether anything is reaped |
| Supervisor.Supervisor.GetWorkerStatus | server.cc:410-444 | if the first reply that is no interruption is an exit, its pid is queued if it is a worker's and 0 if not, else nothing is queued; it is the protocol's reaping |
| Supervisor.Supervisor.FindWorker | server.cc:356-361 | the search ends at the last slot of the pid, or at none |
| Supervisor.Supervisor.Replace | server.cc:368-378 | a successful fork puts its pid in the last slot of the old one and nowhere else, a failed one changes nothing; these are the protocol's two outcomes of a fork |
| ConnTracker.Worker.HandleAccepted | server.h:110-133 | the tracked descriptors stay those of the works not destroyed, on every path of the loop |
| ConnTracker.Worker.Destroy | server.h:54-57 | destroying a work untracks and closes its descriptor and keeps the match, so the descriptor can be reused |
| ConnTracker.Worker.GetConnSize | server.h:39 | the size is the number of request works not destroyed |
| ConnTracker.Worker.MayExit | server.cc:397-408 | the worker leaves its loop if and only if it is shutting down and no request work is outstanding |
| SendLoops.ProceedsExactly | frame.cc:298-316 | the loop goes on after bytes taken, after EINTR and when the socket has become writable; the first other reply ends it, with 0 for a close, -2 for a timeout and -1 otherwise |
| SendLoops.OfferedExactly | frame.cc:289-296 | what each kind of reply adds to the bytes that can be taken |
| SendLoops.TakenIsOffered | frame.cc:285-320 | the bytes taken reply by reply are what the replies before the first ending one offer, up to the length |
| SendLoops.Socket.Send | frame.cc:285-320 | for every script of replies the kernel took that many bytes of the buffer, in order and once, and the length is returned if that is all; else every reply before the last used let the loop go on, and that one gave the value returned |
| SendLoops.TailExactly | http/tcp_conn.cc:153-155 | by its length modulo 2^32 a buffer is handed over by its last so many bytes, or not at all from 2^31 on |
| SendLoops.TcpConn.Send | http/tcp_conn.cc:141-175 | returns 0 exactly when the replies offer to take the tail it computes before one ends the inner loop; that tail is the whole buffer if and only if it is below 2^31 bytes; 2^31 bytes return 0 unsent |
| HttpReceive.HttpSrvWork.Run | http/http_server.cc:27-84 | computes the loop on values; for every cutting of a non-pipelined stream it serves the messages in order, all that arrived; for any stream it loses no byte unless a read goes beyond the request it completes, and overruns its buffer exactly if such a request does not fit |
| HttpReceive.TracksRead | http/http_server.cc:40-76 | a read of any part of a chunk continues or completes the current message and the framing check tells which |
| HttpReceive.NonPipelinedIsServed | http/http_server.cc:34-81 | with no pipelining the loop ends after a request exactly if the first is not kept alive, at a message that does not parse, or with exactly those messages served whose bytes have all arrived; if all arrive and parse, exactly these are served |
| HttpReceive.ServedAreComplete | http/http_server.cc:46-60 | when nothing more comes, as many messages are served as fit in the bytes that arrived |
| HttpReceive.CountedOnceExactly | http/http_server.cc:34-81 | for every stream the loop counts each byte once if and only if no read goes beyond the request it completes, and then every byte is kept in order and the buffer is not overrun |
| HttpReceive.TrackedNeverCrosses | http/http_server.cc:34-81 | without pipelining no read goes beyond the request it completes |
| HttpReceive.OverrunExactly | http/http_server.cc:36-60 | for every stream the buffer is overrun if and only if a kept-alive request is served that is followed by bytes and does not fit beside what was received |
| HttpReceive.LeftoverKeptExactlyIfNone | http/http_server.cc:55-60 | after serving, the filled part is the bytes received since if and only if there are none; else these bytes are in front and the served length counts twice, and exceeds the buffer if and only if fill and request together do |
| HttpReceive.FirstCrossingOverruns | http/http_server.cc:40-60 | after a first read with a kept-alive request and more, the next read overruns the buffer if and only if the bytes read and the request exceed 512 |
| HttpReceive.FirstReadDecides | http/http_server.cc:42-75 | a first read that is not HTTP, does not parse or is not kept alive ends the loop, each in its way |
| HttpReceive.ServesFront | http/http_server.cc:46-60 | from any state a turn that finds a kept-alive message in front serves it, whatever follows it |
| HttpReceive.PipelinedMessageWaits | http/http_server.cc:55-63 | of two kept-alive messages that arrive together and fit, the second is next to be served, but only when more bytes arrive |
| HttpReceive.PipelinedMessagesOverrun | http/http_server.cc:40-60 | two messages of 300 bytes that arrive together end in an overrun with only the first served |
| Text.SplitLoop | util/string.cc:11-26 | the reading loop computes the pieces of the text |
| Text.SplitJoin | util/string.cc:11-26 | pieces hold no delimiter and join to the text but for one trailing delimiter |
| Text.JoinSplit | util/string.cc:11-26 | joined pieces split into themselves but for an empty last one after others |
| Text.SpacesExactly | util/string.h:17-20 | the blanks are space, tab, newline, vertical tab, form feed and carriage return |
| Text.TrimLeavesCore | util/string.h:16-32 | every text is its trimmed form, without any of the six blanks at its edges, between such blanks |
| Text.TrimBetween | util/string.h:16-32 | a text without any of the six blanks at its edges is recovered from any such blanks around it |
| RpcMapping.Server.AddRpcService | server.cc:144-180 | entries are added in turn up to the first bad one, which stay added when it fails |
| RpcMapping.DividesExactly | server.cc:149-151 | an entry splits into a path and a name exactly if it is the path, `>` and the name, without further `>` but for one at the end |
| RpcMapping.EntriesRead | server.cc:148-171 | the trimmed pairs of the entries are put in the map in order up to the first entry that is not of that form or names no method, which makes the reading fail |
| RpcMapping.SomeReading | server.cc:148-171 | every list of entries has such pairs |
| RpcMapping.PrintedPairsReadBack | server.cc:144-171 | printed clean pairs are read back; reading succeeds if and only if there is a pair and every method is known |
| RpcMapping.LaterPairWins | server.cc:170 | a path maps to the method of its last pair, and other paths are as before |
| RoundRobin.ResCache.PickOne | dns/dns_resolve_impl.h:27-33 | returns the address at the counter's position and advances the 32-bit counter; an empty list yields 0 |
| RoundRobin.ResCache.PickMany | dns/dns_resolve_impl.h:27-33 | picks in a row return the addresses at the successive positions, each distinct address as often as its position is counted |
| RoundRobin.FairWindow | dns/dns_resolve_impl.h:32 | a window of k turns returns every position exactly k times, without a wrap or if the length divides 2^32 |
| RoundRobin.BalancedWindow | dns/dns_resolve_impl.h:32 | in any such window counts differ by at most one |
| RoundRobin.WrappedWindowFairExactly | dns/dns_resolve_impl.h:32 | a window with one wrap is fair if and only if the length divides 2^32 or the picks before the wrap are whole turns |
| RoundRobin.AlwaysFairExactly | dns/dns_resolve_impl.h:32 | every window is fair if and only if the length divides 2^32 |
| LogRotation.LocalLog.Rotate | util/log.cc:144-163 | for every set of existing files what was at i is at i + 1, only the old last file is lost, file 0 is new, files beyond are untouched |
| LogRotation.LocalLog.RotateIfLarge | util/log.cc:137-163 | below 1 MiB nothing happens; else the files are rotated, all of the above |

## Left out

- ucontext switching and stacks (`thread.cc`), libevent and real sockets: replaced by the assumptions above.
- `Frame::Fini`, `InitHereAsNewThread`, `UdpSendAndRecv`, and sending from the signal handler: outside the step model.
- `Frame::TcpSendAndRecv`: its send condition is inverted and its receive offset never moves, so it has no contract.
- What accept, connect, recv and recvfrom do around their waits; only `Frame::send` is modelled in full.
- The pause after 15 rounds of the accept loop (`server.h:85-89`) and the 50 ms sleep after a failed TryLock: they do not affect the lock.
- `UdpSrvWork` and `FileMtx`: the first loops without unlocking when it receives 0 bytes, the second is a kernel call.
- The mode of a worker forked by the master's loop (`server.cc:369-372`), and liveness of reaping: one notification reaps one child (`server.cc:442`), so coalesced signals leave zombies.
- The compare-and-set of other processors (`mutex.cc:69-72`), which stores unconditionally.
- AcceptLock.NextKeeps: the whole protocol is modelled on values, as a transition system, because its steps belong to different processes.
- SleeperHeap.PopHeap: the heap algorithms are the standard library's; another permutation with the same contract would serve as well.
- HttpReceive.HttpSrvWork.Run: does not model buffers of 2^31 bytes or more, where the lengths passed to the framing check would be cut to 32 bits; what the parser makes of the stale bytes after a read beyond a request is not modelled further than its framing check.
- ConnTracker.Worker.HandleAccepted: the tracker is present; without one the loop's last test dereferences null (`server.h:131`).
- RoundRobin.WrappedWindowFairExactly: windows with at most one wrap of the counter; a refreshed cache entry, which appends to the expired list (`dns/dns_resolve_impl.cc:85-90`), is another list.
- The receive loop of `TcpConn::SendAndReceive`, the HTTP parser, requests and responses, DNS queries, configuration, daemonising, log formatting, process titles: plumbing or foreign code.
