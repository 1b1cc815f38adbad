# PDK concurrency, codec and bookkeeping cores in Dafny

This project models the parts of the PDK systems library whose correctness does not show in any one
function, and proves what they promise for every input, every run or every interleaving.

| file | component |
|---|---|
| `Common.dfy` | counting threads, ring indices, sequence facts |
| `Semaphore.dfy` | `Semaphore`: counter, waiters and wakeups |
| `CircularQueue.dfy` | `CircularQueue`: ring gated by two semaphores |
| `BoundedQueue.dfy` | `BoundedQueue`: ring with two condition variables, timeouts and shutdown |
| `ThreadLifecycle.dfy` | `Thread`: `create`, `close_pre`, `close_post` against workers |
| `PgPool.dfy` | `PgConnectionPool` and `PgGuard` |
| `Archive.dfy` | `Archive`: buffered typed writer and reader |
| `IniFile.dfy` | `IniFile`: store, printer, parser |
| `TcpFraming.dfy` | `TcpChannel` frame reassembly over `MemoryStream` |
| `GlobalTimer.dfy` | `GlobalTimer`: list and nested map, sweep, `DIFFTIME` |
| `Logger.dfy` | `Logger`: rotation and consumer loop |
| `Checksum.dfy` | `IcmpManager::check_sum` |
| `MemList.dfy` | `MemList`: recycled linked list |

`dafny verify dfyconfig.toml` checks everything.

## How the components are modelled

Objects are classes whose methods change their fields; fixed buffers are arrays. Each method is
specified by a function of its old state, and the laws are proved about that function.

Concurrent components have in addition a step machine: a value state with a table of any number of
threads, each at a program counter, and one atomic step per semaphore operation, locked section or
condition-variable event. A run is a sequence of steps in any order. The machine steps use the same
functions that the class methods are proved against (`Ring.Put`, `Buffer.PopLocked`, `Core.Claim`, and
so on). Waits on semaphores and condition variables have explicit wait sets, with arbitrary spurious
wakeups, timeouts and barging, and `notify_one` may pick any waiter. The queue and pool objects hold
`Semaphore` objects. What a thread is doing is tied to the events of the run: each machine has a lemma
`ThreadsFollowTheirCalls` or its like, which says that a thread works on behalf of its own last call,
with that call's arguments, and has timed out exactly if its own time ran out. The `...Exact` lemmas
build on it and say what each call answers, and the `...Stuck` lemmas that every thread can go on.

Inputs from outside are parameters or choices in the steps: the time, what libpq finds, which waiter
is woken, what `recv` returns, whether a file opens.

### Findings

* `ThreadLifecycle.CreateInsideCloseIsNotStopped`: a `create` between the two halves of a `close()`
  replaces the triggered stop source, and the closer then joins a worker that nobody has told to
  stop. `JoinedWorkerWasToldToStop` gives the exact condition.
* `TcpFraming.FramesAreReassembled`: the length field is examined with one to seven bytes buffered
  exactly when a received chunk ends that many bytes into a frame, as in `SplitHeaderIsExamined`; every
  other split is harmless.
* `GlobalTimerModel.AddKeepsAgreement`: timer ids are cut to eight bits in the list but not in the
  map, so the two agree after a start exactly when the id is 0 to 255; `WideIdDisagrees` is id 256.
  `WideIdInSweep` says what the next sweep does with any other id: it skips the timer, or fires it and
  erases the map entry of the timer that has the cut id.
* `GlobalTimerModel.FiresEarlyExactly`: a sweep at or after the start fires a timer before its term
  exactly when the microsecond fields run against the seconds by no whole number of milliseconds and
  the rounded-up count is the term (`CanFireEarly`: 999 microseconds early). A sweep reads its time
  before it takes the lock, so a timer may be started after that time; such a timer fires at once
  exactly when the rounded distance reaches its term, because `DIFFTIME` takes the absolute value
  (`CanFireBeforeStart`). No sweep is ever late.
* `LoggerModel.WritesAllExactly`: everything logged is written exactly when no text is logged before
  the first `create_file`; `EarlyTextIsLost` is a message that is lost.
* `IniFileModel.PrintThenParse`: a store comes back from its file exactly when the names are unique
  and every printed section name and entry survives, in the sense of `HeaderSurvives` and `Survives`:
  no line breaks, no stray spaces or comment signs, and no harmful cut at 2047 characters.
  `CommentIsLost` is a value with a comment sign.
* `ArchiveModel.Archive.Flush`: a flush keeps the stream exactly when less than 4 GiB is buffered. By
  then the stream holds a string that no load buffer takes, so `StoreThenLoad` does not depend on it.
* `Checksum.NoOverflowUpTo`: the accumulator can overflow exactly from 65538 bytes on.
* `CircularQueueModel.UnlockReachesFallback`: each of the two fallbacks is reached by some run with k
  `unlock_queue` calls exactly when k is positive.

## Model

| member | source | states |
|---|---|---|
| SemaphoreModel.Semaphore.Unlock | include/jthread.hpp:104-109 | posts exactly the requested number of permits, none for a negative one |
| SemaphoreModel.EveryRunKeepsInv | include/jthread.hpp:72-91 | in every run of any number of waiters and signallers: count + granted waits = initial value + signals, and while someone waits every permit has a woken thread |
| SemaphoreModel.WaiterIsServed | include/jthread.hpp:72-91 | whenever a thread waits although a permit is there, a woken thread exists whose next step takes a permit |
| SemaphoreModel.FailedWaitIsTimed | include/jthread.hpp:78-85 | only a timed wait fails, and only when it finds no permit |
| SemaphoreModel.AnswersAreExact | include/jthread.hpp:72-91 | in every run a wait is granted exactly when a permit is there, fails exactly when none is and its own time has run out, and goes on otherwise; a signal adds one permit |
| SemaphoreModel.NobodyIsStuck | include/jthread.hpp:72-91 | an idle thread can call, a woken one resume, a parked one time out exactly if it is timed, and a permit can always be posted |
| CircularQueueModel.PutAppends | include/util.hpp:181-194 | the put section refuses exactly when MAX-1 slots are live; otherwise it appends to the window, writes a slot that was not live and leaves every live node alone |
| CircularQueueModel.GetRemovesOldest | include/util.hpp:210-220 | the get section refuses exactly when nothing is live; otherwise it removes the oldest payload and keeps the rest in order |
| CircularQueueModel.CircularQueue.Initialize | include/util.hpp:110-122 | all slots free, empty window, MAX-1 put permits and no get permit |
| CircularQueueModel.CircularQueue.UnlockQueue | include/util.hpp:128-132 | both permit counts run one ahead of the slots, the ring is untouched |
| CircularQueueModel.CircularQueue.PutSection | include/util.hpp:180-194 | the in-place update of the node array is the abstract put |
| CircularQueueModel.CircularQueue.GetSection | include/util.hpp:209-220 | the in-place update of the node array is the abstract get |
| CircularQueueModel.CircularQueue.TryPut | include/util.hpp:173-197 | accepts exactly while fewer than MAX-1 payloads are live, whatever `unlock_queue` has added, and appends |
| CircularQueueModel.CircularQueue.TryGet | include/util.hpp:199-223 | returns the oldest payload exactly when one is live |
| CircularQueueModel.EveryRunKeepsInv | include/util.hpp:173-223 | in every interleaving with k `unlock_queue` calls, under spurious wakeups, timeouts and barging: both permit sums, counting in-flight threads, are off by exactly k; while someone is parked on a semaphore every permit has a woken thread; `in_use_` marks exactly the window; enqueued = dequeued ++ window |
| CircularQueueModel.FallbacksUnreachable | include/util.hpp:183-186 | without `unlock_queue`, a thread holding a permit always finds the ring as promised, so neither fallback is taken |
| CircularQueueModel.UnlockReachesFallback | include/util.hpp:128-214 | for the full and for the empty fallback: some run with k `unlock_queue` calls takes it exactly when k is positive |
| CircularQueueModel.LivePayloadsKept | include/util.hpp:189-193 | no step of any run changes a live node, except the oldest one as it is handed out |
| CircularQueueModel.QuiescentPermits | include/util.hpp:103-107 | with nobody past its wait, permits = free slots and get permits = live slots, each plus k |
| CircularQueueModel.SettledWaitersAreRight | include/util.hpp:173-208 | with every thread idle or parked, a parked producer means a full ring and a parked consumer an empty one, and nobody is parked once `unlock_queue` has been called |
| CircularQueueModel.WaitingProducerIsServed | include/util.hpp:173-194 | whenever a producer is parked although a put permit is there, a woken producer takes it in its next step and, without `unlock_queue`, publishes its payload in the step after that |
| CircularQueueModel.WaitingConsumerIsServed | include/util.hpp:199-220 | whenever a consumer is parked although a get permit is there, a woken consumer takes it in its next step and, without `unlock_queue`, the oldest payload in the step after that |
| CircularQueueModel.ThreadsFollowTheirCalls | include/util.hpp:173-223 | in every run every thread is where its own last call has brought it: with that call's payload, with nothing added to the queue unless its own section did, and with the payload its own section removed |
| CircularQueueModel.WaitsAreExact | include/util.hpp:175-179 | a thread at a semaphore takes a permit exactly when there is one, gives up exactly when there is none and its time has run out, and waits otherwise |
| CircularQueueModel.SectionsServeTheirCallers | include/util.hpp:188-194 | a section that publishes appends its own caller's payload, and one that removes hands its thread the payload it took |
| CircularQueueModel.AnswersAreExact | include/util.hpp:173-223 | a put that returns success has added exactly its caller's payload, one that returns full has added nothing; a get returns exactly what it has removed; a call gives up only when its time has run out and no permit is there, or after an `unlock_queue` |
| CircularQueueModel.NobodyIsStuck | include/util.hpp:173-223 | a thread that is not parked can always take its next step, and a parked one can time out exactly if it is timed |
| BoundedQueueModel.EnqueueAppends | include/bounded_queue.hpp:60-62 | writing at `head_` fills an empty slot and appends to the contents |
| BoundedQueueModel.PopRemovesOldest | include/bounded_queue.hpp:143-150 | `pop_locked` returns the oldest value and keeps the rest in order, with exactly `size_` slots filled from `tail_` |
| BoundedQueueModel.BoundedQueue.Create | include/bounded_queue.hpp:41-49 | refused exactly for capacity zero, else an open empty queue |
| BoundedQueueModel.BoundedQueue.PushReady | include/bounded_queue.hpp:56-65 | once its wait is over a push fails exactly when closed, else appends |
| BoundedQueueModel.BoundedQueue.TryPush | include/bounded_queue.hpp:68-76 | accepts exactly when open and not full, and appends |
| BoundedQueueModel.BoundedQueue.TryPop | include/bounded_queue.hpp:104-108 | returns the oldest value exactly when there is one |
| BoundedQueueModel.BoundedQueue.PopLocked | include/bounded_queue.hpp:143-150 | the in-place update is the abstract pop |
| BoundedQueueModel.BoundedQueue.Shutdown | include/bounded_queue.hpp:124-129 | closes and keeps every queued value |
| BoundedQueueModel.EveryRunKeepsInv | include/bounded_queue.hpp:56-150 | in every state of every run, under spurious wakeups, timeouts and barging: accepted = popped ++ contents; a parked consumer implies woken consumers >= size, a parked producer implies woken producers >= free slots; once closed nobody is parked |
| BoundedQueueModel.SettledWaitersAreRight | include/bounded_queue.hpp:56-120 | with no wakeup in flight, a waiting consumer means empty, a waiting producer means full, and never both |
| BoundedQueueModel.WaitingConsumerIsServed | include/bounded_queue.hpp:96-101 | whenever a consumer waits on a non-empty queue, a woken consumer exists whose next step pops the oldest value |
| BoundedQueueModel.WaitingProducerIsServed | include/bounded_queue.hpp:56-65 | whenever a producer waits on a queue with room, a woken producer exists whose next step pushes |
| BoundedQueueModel.EmptyPopMeansDrained | include/bounded_queue.hpp:94-101 | a blocking pop returns empty only when closed and everything accepted has been popped; a blocking push fails only when closed |
| BoundedQueueModel.ClosedAcceptsNothing | include/bounded_queue.hpp:122-129 | after shutdown nothing more is accepted for the rest of any run, while pops go on |
| BoundedQueueModel.ThreadsFollowTheirCalls | include/bounded_queue.hpp:56-120 | in every run a waiting thread waits with the value and the mode of its own last call, and has expired exactly if its own time ran out |
| BoundedQueueModel.AnswersAreExact | include/bounded_queue.hpp:56-129 | for every step of every run: a push is accepted, with its caller's value, exactly when open and not full, and fails exactly when closed, or full for a call that may not wait any longer; a pop gives the oldest value exactly when there is one and nothing exactly when there is none and it is closed or too late; exactly the other calls wait; shutdown closes and wakes everyone |
| BoundedQueueModel.NobodyIsStuck | include/bounded_queue.hpp:56-129 | idle threads can call, woken ones resume, exactly the timed parked ones time out, and shutdown is always possible |
| ThreadLifecycle.Thread.Create | src/jthread.cpp:22-53 | past the gate, a joinable worker, running or already returned, is left alone; otherwise a triggered stop source is replaced and a worker launched |
| ThreadLifecycle.Thread.Claim | src/jthread.cpp:79-84 | exactly one closer gets the thread, and `closing_` is raised |
| ThreadLifecycle.Thread.Close | src/jthread.cpp:56-93 | by an only client: the worker that was held is told to stop and joined, and nothing is held afterwards |
| ThreadLifecycle.RunClient | src/jthread.cpp:22-93 | any sequence of `create` and `close` by an only client joins the workers in launch order, once each; a worker still held is the newest and has not been told to stop |
| ThreadLifecycle.EveryRunKeepsInv | src/jthread.cpp:22-93 | the invariant behind the following rows holds in every state of every run of any number of clients and workers |
| ThreadLifecycle.OneWorkerAtATime | src/jthread.cpp:22-53 | at most one worker runs; every worker but the newest has been claimed once, joined once and has finished |
| ThreadLifecycle.ClosingMeansOneHolder | include/jthread.hpp:428-437 | `closing_` is true exactly while exactly one closer holds the moved-out thread, and a `create` waits only then |
| ThreadLifecycle.SourceReplacedOnlyWhenIdle | src/jthread.cpp:41-44 | `stop_source_` is replaced only when every worker so far has been joined |
| ThreadLifecycle.SeenStopStays | include/jthread.hpp:410-412 | once `do_exit()` has been true for a running worker it stays true for it |
| ThreadLifecycle.JoinedWorkerWasToldToStop | src/jthread.cpp:56-93 | the worker being joined has its own stop source triggered exactly if a `close_pre` came after its launch, in particular if the closer's own did |
| ThreadLifecycle.TriggeredIffToldToStop | src/jthread.cpp:62-66 | the stop source of an unjoined worker is triggered exactly if some `close_pre` event came after its launch |
| ThreadLifecycle.PollIsExact | include/jthread.hpp:410-412 | `do_exit()` answers true to a worker exactly when its own source is triggered, that is when some `close_pre` came after its launch |
| ThreadLifecycle.RunsUntilExit | src/jthread.cpp:48-50 | a worker runs from its launch until it returns from `thread_proc()` |
| ThreadLifecycle.CreateIsExact | src/jthread.cpp:22-53 | a `create` waits exactly during a close, returns exactly for a joinable thread, and otherwise launches one worker under a source that nobody has triggered |
| ThreadLifecycle.ClaimIsExact | src/jthread.cpp:79-84 | the newest worker is claimed exactly when a thread is held and nobody else is closing; otherwise nothing happens |
| ThreadLifecycle.JoinIsExact | src/jthread.cpp:85-86 | the join ends only when the worker has returned, and settles it |
| ThreadLifecycle.ResetIsExact | src/jthread.cpp:87-92 | afterwards nothing is held, nobody is closing and exactly the waiting `create` calls are woken |
| ThreadLifecycle.NobodyIsStuck | src/jthread.cpp:22-93 | every client can go on, except that a closer waits until its worker has returned; a running worker can always poll and return |
| ThreadLifecycle.CreateInsideCloseIsNotStopped | src/jthread.cpp:56-60 | a `create` between the halves of a `close()` leads to joining a running worker that was not told to stop |
| PgPool.PgConnectionPool.Create | src/pgpool.cpp:79-89 | fails exactly when an attempt fails or the size is negative; else all connections are free, in order, with as many permits |
| PgPool.PgConnectionPool.Acquire | src/pgpool.cpp:91-112 | times out exactly when no connection is free, else hands out the one freed longest ago |
| PgPool.PgConnectionPool.Release | src/pgpool.cpp:114-144 | the connection, or its replacement put in the same slot, goes to the back of the free list; ownership stays distinct |
| PgPool.EveryRunKeepsInv | src/pgpool.cpp:79-144 | in every interleaving, across waits, rebuilds and guard moves: always `pool_size` distinct connections, each on the free list, in one guard or with one releasing thread; free list = permits + acquirers past the wait + releasers not yet signalled; while someone is parked every permit has a woken thread |
| PgPool.WaitingThreadIsServed | src/pgpool.cpp:91-112 | whenever a thread is parked in `acquire` although a permit is there, a woken thread takes it in its next step and the connection freed longest ago in the step after that |
| PgPool.SettledWaitersAreRight | src/pgpool.cpp:91-144 | with every thread idle or parked, a parked one means that every connection is in a guard |
| PgPool.FrontIsNeverEmpty | src/pgpool.cpp:97-99 | `front()` is never taken on an empty list |
| PgPool.GuardsAreExclusive | include/pgpool.hpp:102-138 | no connection is in two guards or both in a guard and free, and a guard's connection is owned by the pool |
| PgPool.SearchFindsItsSlot | src/pgpool.cpp:119-134 | the unlocked slot-by-slot search of a rebuild never runs off the end, whatever other rebuilds do meanwhile, and stops at the one slot of its connection |
| PgPool.RebuildsTouchDistinctSlots | src/pgpool.cpp:120-135 | two concurrent rebuilds never write the same slot |
| PgPool.AllReturned | src/pgpool.cpp:139-143 | when all guards are empty and no thread is inside, all connections are free and all permits are back |
| PgPool.MoveKeepsCount | include/pgpool.hpp:112-127 | moving a guard neither duplicates nor loses a connection |
| PgPool.ThreadsFollowTheirCalls | src/pgpool.cpp:91-144 | in every run a thread works on the guard of its own last call, and carries the connection of the guard it gave up or its replacement |
| PgPool.AcquireIsExact | src/pgpool.cpp:91-112 | a thread takes a permit exactly when there is one, gives up exactly when there is none and its time has run out, and then fills the guard it was called for with the connection freed longest ago |
| PgPool.ReleaseIsExact | src/pgpool.cpp:114-144 | a sound connection goes back as it is; any other is searched for from the first slot on and replaced, if at all, in its own slot; the free list grows by exactly that connection or its replacement, and one permit is posted |
| PgPool.MovesAreExact | include/pgpool.hpp:108-127 | after a move the target has the contents of the source, the source is empty and no other guard has changed, at once for an empty target and at the end of the release otherwise; a drop releases what the guard held |
| PgPool.AcquirersAreNotStuck | src/pgpool.cpp:91-112 | idle and acquiring threads can always go on |
| PgPool.ReleasersAreNotStuck | src/pgpool.cpp:114-144 | releasing threads can always go on, except that the end of a move assignment waits while the source guard is busy |
| Common.LittleEndianRoundTrip | src/archive.cpp:145-151 | decoding the bytes of an integer gives the integer |
| Common.LittleEndianDigit | src/archive.cpp:145-151 | byte i of an encoded integer is its digit i in base 256 |
| ArchiveModel.EncodingIs | src/archive.cpp:86-165 | length and every byte of the encoding of each kind of value |
| ArchiveModel.FlagIsNonZero | src/archive.cpp:209-215 | a loaded flag is true exactly when one of its four bytes is not zero |
| ArchiveModel.StorableIs | src/archive.cpp:86-91 | of a string the bytes before its first NUL are stored, their number cut to 32 bits |
| ArchiveModel.DecodeAllEncoded | src/archive.cpp:125-215 | decoding the concatenated encodings gives back all values exactly when every stored string fits the load buffer, else the end-of-stream error |
| ArchiveModel.LoadsBackExactly | src/archive.cpp:86-215 | decoding gives back the values themselves exactly when every string is NUL-free, has a 32-bit length and fits the load buffer |
| ArchiveModel.CanonicalIsSame | src/archive.cpp:86-91 | a value is stored unchanged unless it is a string with a NUL or a length beyond 32 bits |
| ArchiveModel.Archive.Flush | src/archive.cpp:23-29 | in store mode the buffered length cut to 32 bits goes to the file and the buffer is empty; the stream is unchanged exactly when less than 4 GiB was buffered; otherwise nothing happens |
| ArchiveModel.Archive.Close | src/archive.cpp:31-35 | the file then holds everything written, exactly when less than 4 GiB was still buffered; in any case it keeps what it held |
| ArchiveModel.Archive.EnsureWrite | src/archive.cpp:52-59 | makes room; the stream is unchanged exactly when this needs no flush of 4 GiB or more |
| ArchiveModel.Archive.Write | src/archive.cpp:78-83 | file ++ buffer grows by exactly the bytes written, exactly when no flush of 4 GiB or more is needed, also after `close()` as long as there is room; a write that grows the buffer has flushed what was before it |
| ArchiveModel.Archive.WriteValue | src/archive.cpp:86-165 | the stream grows by exactly the encoding of the value; only a string of 2^31 bytes or more grows the buffer to 4 GiB, and its count is on file by then |
| ArchiveModel.Archive.Compact | src/archive.cpp:42-44 | the in-place move brings exactly the unread buffered bytes to the front |
| ArchiveModel.Archive.FillBuffer | src/archive.cpp:38-49 | compaction and refill keep the unread stream and fill the buffer as far as the stream allows |
| ArchiveModel.Archive.Read | src/archive.cpp:61-76 | succeeds exactly when n fits the unread stream and the buffer; a failing read leaves the unread stream unchanged |
| ArchiveModel.Archive.ReadValue | src/archive.cpp:103-215 | decodes the next value from the unread stream; a string that fails leaves its count consumed |
| ArchiveModel.DecodeHuge | src/archive.cpp:61-67 | a stream that reaches the count of a string of 2^31 bytes or more fails to load, whatever follows the count |
| ArchiveModel.StoreFile | src/archive.cpp:23-165 | store and close leave the encoding of all values on the file, or else the count of such a string behind the values before it |
| ArchiveModel.StoreThenLoad | src/archive.cpp:23-215 | store, close, load with any two buffer sizes gives back the values exactly when every string is NUL-free, has a 32-bit length and fits the load buffer |
| IniFileModel.Trim | src/inifile.cpp:12-28 | the result has no space at either end and differs from the input exactly when the input has one |
| IniFileModel.TrimCuts | src/inifile.cpp:12-28 | trimming cuts off a prefix and a suffix made of spaces only, and nothing else |
| IniFileModel.SetKeepsWellFormed | src/inifile.cpp:180-203 | names of sections, and of values in a section, stay unique |
| IniFileModel.RemoveKeepsWellFormed | src/inifile.cpp:226-245 | names stay unique under both deletions |
| IniFileModel.ReadKeepsWellFormed | src/inifile.cpp:47-79 | names stay unique whatever text is parsed into the store |
| IniFileModel.SetThenLookup | src/inifile.cpp:180-203 | setting a value changes exactly the lookup of that value |
| IniFileModel.SetKeepsPlaces | src/inifile.cpp:180-203 | setting leaves every section and value where it is and puts a new one behind the others |
| IniFileModel.RemoveValueThenLookup | src/inifile.cpp:226-235 | deleting a value ends exactly the lookup of that value |
| IniFileModel.RemoveSectionThenLookup | src/inifile.cpp:237-245 | deleting a section ends exactly the lookups into it |
| IniFileModel.IniFile.FindKey | src/inifile.cpp:248-254 | index of the first section of that name, -1 when there is none |
| IniFileModel.IniFile.FindValue | src/inifile.cpp:256-265 | index of the first value of that name, -1 when there is none or no section |
| IniFileModel.IniFile.TryGetString | src/inifile.cpp:269-279 | the lookup in the store |
| IniFileModel.IniFile.SetValue | src/inifile.cpp:180-203 | fails, changing nothing, exactly when asked not to create a missing value; else the parallel vectors hold the updated store |
| IniFileModel.IniFile.DeleteValue | src/inifile.cpp:226-235 | succeeds exactly when the value exists, and removes it from both vectors |
| IniFileModel.IniFile.DeleteKey | src/inifile.cpp:237-245 | succeeds exactly when the section exists, and removes it |
| IniFileModel.IniFile.ReadFile | src/inifile.cpp:39-82 | the loop over `fgets` chunks computes the parse of the text into the existing store; fails only if the file does not open |
| IniFileModel.IniFile.WriteFile | src/inifile.cpp:85-103 | writes the printed form of the store |
| IniFileModel.PadIs | src/inifile.cpp:98 | names are padded with spaces to ten characters |
| IniFileModel.EntryExample | src/inifile.cpp:98 | the printed line of `n` = `v` |
| IniFileModel.SectionIsPrinted | src/inifile.cpp:93-101 | a section is printed as its header, its entries in order and a blank line; one without values not at all |
| IniFileModel.ChunksConserve | src/inifile.cpp:48-49 | the chunks of `fgets` put together are the text |
| IniFileModel.CleanStopsAtNul | src/inifile.cpp:50 | a chunk ends at its first NUL |
| IniFileModel.AssignmentIs | src/inifile.cpp:60-77 | a line `left=right#comment` sets the trimmed left side to the trimmed right side |
| IniFileModel.OtherLines | src/inifile.cpp:53-64 | a comment sets nothing, and a line without `=` sets an empty value |
| IniFileModel.EntryReadsBack | src/inifile.cpp:60-77 | the whole printed line of a one-line entry parses to that entry exactly when the entry is printable |
| IniFileModel.HeaderReadsBack | src/inifile.cpp:56-58 | a whole printed header parses to its name exactly when the name has no surrounding space |
| IniFileModel.LineIsOneChunk | src/inifile.cpp:48-49 | `fgets` returns a line in one piece exactly when it has at most 2047 characters |
| IniFileModel.LineChunks | src/inifile.cpp:48-49 | a line of up to two buffers comes back whole or cut behind its first 2047 characters |
| IniFileModel.LinesConcat | src/inifile.cpp:48-52 | complete lines are cut and parsed without regard to what follows them |
| IniFileModel.EntryRoundTrip | src/inifile.cpp:47-97 | a printed entry, cut by `fgets` as it may be, is read into an empty store as exactly itself if and only if it survives: one line, printable, and at most the newline cut off, or an empty value and a cut behind the whole name |
| IniFileModel.CommentIsLost | src/inifile.cpp:70-73 | the value "a#b" does not come back |
| IniFileModel.HeaderRoundTrip | src/inifile.cpp:47-95 | a printed header sets its section and no value if and only if the name is one line without surrounding space and at most 2045 characters |
| IniFileModel.EverythingIsRead | src/inifile.cpp:47-79 | every section name and entry of a store read from a file stands on one of its lines, except that a section may be the one the reader started in |
| IniFileModel.ReadBackSurvives | src/inifile.cpp:39-103 | if a store comes back from its file then every entry of it survives; an entry that does not cannot be made up by the pieces of other lines |
| IniFileModel.PrintThenParse | src/inifile.cpp:39-103 | for every store: parsing its printed form into a fresh one gives the same sections, names, values and order, minus sections without values, if and only if the names are unique and every section name and entry that is printed survives |
| IniFileModel.SaveAndLoad | src/inifile.cpp:39-103 | the same equivalence for `write_file` followed by `read_file` on objects |
| TcpFraming.MemoryStream.Write | include/stream.hpp:98-108 | overwrites or extends the buffer at the position, zero-filling a gap, and moves the position behind it |
| TcpFraming.MemoryStream.GetSize | include/stream.hpp:21-27 | returns the buffer length and restores the position |
| TcpFraming.MemoryStream.SetSize | include/stream.hpp:126-131 | truncates or extends, and clamps the position |
| TcpFraming.MsgLenIsLittleEndian | include/eventdefs.hpp:30-32 | for every signed 32-bit n, the header with n stored low byte first in bytes 4 to 7 has length n |
| TcpFraming.DrainMeaning | src/tcpserver.cpp:77-99 | a drain loses no byte, and what is left is why it stopped: nothing, too few bytes for a header, an illegal length, or an incomplete frame |
| TcpFraming.IllegalLengthDrops | src/tcpserver.cpp:82-87 | an illegal length behind complete frames: they are delivered and the peer is dropped |
| TcpFraming.DrainContinues | src/tcpserver.cpp:77-99 | bytes that arrive later only continue the cutting where it stopped |
| TcpFraming.ChunkingDoesNotMatter | src/tcpserver.cpp:61-100 | however a byte stream is split, under the header hypothesis: same frames, same leftover, same verdict |
| TcpFraming.DrainFrames | src/tcpserver.cpp:77-99 | the first p bytes of a stream of frames yield exactly its complete frames and exactly the rest |
| TcpFraming.CompleteIsMaximal | src/tcpserver.cpp:88-89 | the delivered frames fit the received bytes and the next one does not |
| TcpFraming.FramesAreReassembled | src/tcpserver.cpp:61-100 | a partial header is examined exactly when a chunk ends one to seven bytes into a frame; otherwise exactly the complete frames are delivered in order and exactly the rest is kept |
| TcpFraming.SplitHeaderIsExamined | src/tcpserver.cpp:77-89 | an eight-byte frame split after four bytes has its header examined when half of it is there |
| TcpFraming.FramesKeepPositionsFit | include/stream.hpp:102-106 | frames that leave room for one receive below the 32-bit limit never overflow the position |
| TcpFraming.TcpChannel.OnRecv | src/tcpserver.cpp:76-99 | one received chunk delivers the frames of the drained buffer, ends the inner loop, and leaves the rest with the position at its end, or drops the peer for an illegal length |
| TcpFraming.RunChannel | src/tcpserver.cpp:61-100 | after any run of chunks the deliveries, the leftover and the verdict are those of the bytes received |
| TcpFraming.ReceiveFrames | src/tcpserver.cpp:61-100 | a peer that sends frames, in any good split: the object has handed over exactly the complete frames in order, keeps the peer, and holds exactly the rest with its position at the end |
| GlobalTimerModel.DiffTimeIsClose | include/util.hpp:228-229 | 1000 times `DIFFTIME` differs from the microseconds between the two times by less than 1000 |
| GlobalTimerModel.DiffTimeExact | include/util.hpp:228-229 | `DIFFTIME` rounds the distance up exactly when the microsecond fields run against the seconds by no whole number of milliseconds, and down otherwise |
| GlobalTimerModel.SweepIsOnTime | src/util.cpp:323-343 | no sweep at or after the start fires a timer within its first term-1 ms, every sweep from term+1 ms on fires it |
| GlobalTimerModel.FiresEarlyExactly | src/util.cpp:306-343 | a sweep at or after the start fires a timer before its term exactly when the time is rounded up and the rounded-up count is the term; a sweep that read its time before the start does exactly when the rounded distance reaches the term |
| GlobalTimerModel.NeverLate | src/util.cpp:323-343 | a sweep fires every timer whose term has passed |
| GlobalTimerModel.CanFireEarly | include/util.hpp:228-229 | a one-second timer that fires 999 microseconds early |
| GlobalTimerModel.CanFireBeforeStart | src/util.cpp:306-323 | a two-millisecond timer that fires in a sweep whose time is four milliseconds before its start |
| GlobalTimerModel.AddKeepsAgreement | src/util.cpp:263-278 | a started timer keeps list and map in agreement exactly when its id is 0 to 255 |
| GlobalTimerModel.WideIdDisagrees | src/util.cpp:263-278 | id 256 puts them in disagreement |
| GlobalTimerModel.WideIdInSweep | src/util.cpp:308-343 | the sweep after a start with any id outside 0 to 255 fires the new timer exactly when it is due and another timer has the cut id and is not due, then erases that timer's map entry and keeps the new one's; otherwise it skips the new timer; all others are swept as usual |
| GlobalTimerModel.SweepKeepsAgreement | src/util.cpp:308-343 | every sweep of an agreeing list and map keeps them in agreement |
| GlobalTimerModel.RemoveKeepsAgreement | src/util.cpp:291-296 | removing a listed timer keeps agreement, with no empty inner map left |
| GlobalTimerModel.TableIffPending | src/util.cpp:263-298 | a key is in the map exactly when a listed timer has it, and at most one has |
| GlobalTimerModel.GlobalTimer.AddElement | src/util.cpp:263-278 | for any id: refused exactly when the key is in the map, which in agreement means pending; else appended |
| GlobalTimerModel.GlobalTimer.RemoveElement | src/util.cpp:280-298 | for any id: succeeds exactly when the key is in the map and removes that timer only; in agreement the timer is always still listed |
| GlobalTimerModel.GlobalTimer.Sweep | src/util.cpp:305-345 | for any ids the loop with both skip branches computes `SweepAll`; in agreement it fires exactly the due timers once, in list order, and keeps the others |
| GlobalTimerModel.SweptKey | src/util.cpp:308-343 | a sweep of an agreeing list and map fires the timer of a key, once, exactly when it runs and is due |
| GlobalTimerModel.Handle | src/util.cpp:251-345 | for any ids, what one call or sweep starts, stops and fires under a cut id, in terms of the list and the map before it; in agreement each key behaves as if it were alone |
| GlobalTimerModel.RunTimers | src/util.cpp:251-345 | over any run with any ids, per object and cut id: successful starts = fires + stops of listed timers + listed timers; with ids 0 to 255 list and map agree, no stop finds a timer that has fired, and every key is in the state, and has been started, stopped and fired as often, as a one-timer machine that sees the same events |
| LoggerModel.RotationConserves | src/logger.cpp:69-85 | what a rotation loses, then the slots oldest first, is the slots before plus the dated file |
| LoggerModel.SevenAreKept | src/logger.cpp:49-85 | after any number of rotations the slots are the last seven texts, newest first, and exactly the older ones are lost |
| LoggerModel.CascadeStep | src/logger.cpp:71-79 | each rename of the cascade moves one slot up and disturbs no other |
| LoggerModel.Logger.CheckQuota | src/logger.cpp:50-88 | rotates exactly when the quota is positive and the dated file has more than quota times 1048576 characters; only an old slot 7 is lost; slots stay contiguous from 1 |
| LoggerModel.Logger.DoOpen | src/logger.cpp:91-125 | afterwards the dated file is open for appending and no text has moved unless it was over quota |
| LoggerModel.Logger.Handle | src/logger.cpp:188-208 | a log message rotates exactly when over quota, then appends; dropped ++ slot 7 ++ ... ++ slot 1 ++ dated file = all text written; every file stays within quota plus one message |
| LoggerModel.Logger.ThreadProc | src/logger.cpp:160-212 | the consumer writes exactly the text queued after the first open, including what is queued behind `Stop`, and keeps conservation and the size bound |
| LoggerModel.WritesAllExactly | src/logger.cpp:160-212 | from a closed file everything logged is written exactly when no text is logged before the first open |
| LoggerModel.WritesFromTheOpenOn | src/logger.cpp:160-212 | what is logged before the first open is lost and everything after it is written |
| LoggerModel.EarlyTextIsLost | src/logger.cpp:188-208 | a message in front of the first open that is not written |
| LoggerModel.LogAll | src/logger.cpp:160-212 | a new logger that consumes a queue: dropped ++ slots ++ dated file is everything logged exactly when no text is logged before the first open |
| Checksum.OnesSumIsNorm | include/icmp.hpp:165-179 | end-around-carry addition of words is their plain sum reduced modulo 65535 |
| Checksum.FoldIsNorm | include/icmp.hpp:176-178 | the two folds and the complement give the complement of that reduction for every 31-bit sum |
| Checksum.NoOverflowUpTo | include/icmp.hpp:167-175 | no input of n bytes overflows the signed accumulator exactly when n is at most 65537 |
| Checksum.ShortSumFits | include/icmp.hpp:167-175 | the sum of every input of up to 65537 bytes is such that the next two rows apply |
| Checksum.SumWords | include/icmp.hpp:167-175 | the loop computes the plain sum of the words, odd byte padded, for every input whose sum is a signed 32-bit integer |
| Checksum.CheckSum | include/icmp.hpp:165-179 | the result is the one's-complement checksum of sections 1 and 2 of RFC 1071 of the first `nLen` bytes; all ones for none |
| Checksum.PacketVerifies | include/icmp.hpp:165-179 | storing the result in a zeroed aligned word makes a recheck return zero |
| Checksum.ByteOrderIndependent | include/icmp.hpp:165-179 | byte-swapping every word byte-swaps the result |
| Checksum.HostResultIsNetworkChecksum | include/icmp.hpp:165-179 | the host-order result stored in memory is the network-order checksum |
| Checksum.RfcExample | include/icmp.hpp:165-179 | the example of section 3 of RFC 1071, and an odd byte in both byte orders |
| MemListModel.MemList.FreeAllItems | src/util.cpp:148-157 | the walk ends and leaves an empty list |
| MemListModel.MemList.SetItems | src/util.cpp:89-94 | new limit, empty list |
| MemListModel.MemList.Reset | src/util.cpp:96-100 | empty list, same limit |
| MemListModel.MemList.Recycle | src/util.cpp:104-117 | the head node becomes the tail; the chain stays acyclic and holds the window without its oldest buffer plus the new one |
| MemListModel.MemList.Add | src/util.cpp:102-132 | the chain holds exactly the last `item_count_` buffers, in order, or all of them under a negative limit |
| MemListModel.MemList.Serialize | src/util.cpp:134-146 | walking from the head ends and yields exactly the window |
| MemListModel.RunList | src/util.cpp:89-157 | after any run of `add`, `reset` and `set_items` the walk yields the last min(count, limit) buffers added, or all of them under a negative limit |

## Left out

- Counters and sizes: unbounded integers, except where a 32-bit width decides the outcome (checksum accumulator, stream position, message length, archive counts, timer ids).
- CircularQueueModel: `reset` and `reset_count` during concurrent use, which change counts without the queue lock; the class has `Initialize` for a quiescent queue, and its methods exclude calls that would block.
- CircularQueueModel.Step: a refused put or get may restore its permit after leaving the lock, which allows more interleavings than the code.
- PgPool.PgConnectionPool.Create: requires distinct addresses for live connections, which the allocator guarantees.
- PgPool.Step: two threads working on one `PgGuard` variable at once, which is a data race of the client.
- ThreadLifecycle: a worker that closes its own `Thread`, detached mode (ignored by the code) and destruction.
- ArchiveModel.Archive.Write: requires store mode, and after `close()` a buffer that has room or is smaller than the write; else the code runs past its buffer.
- ArchiveModel: the truncating `read_string(char*, n)`, float and double operators, and files with short writes.
- IniFileModel: typed getters, boolean literals and `num_keys`-style counts.
- TcpFraming.TcpChannel.OnRecv: requires the header hypothesis and a buffer within 32-bit positions; beyond them the code reads or counts out of range. The mode without framing and the accept loop are not modelled.
- TcpFraming.RunChannel: the same two demands, over a whole connection; `FramesAreReassembled` and `FramesKeepPositionsFit` say when they hold.
- TcpFraming.ReceiveFrames: good splits only, and frames that leave room for one receive below the 32-bit position.
- GlobalTimerModel.RunTimers: a stop of a timer that has already fired under the cut id of another one frees it a second time in the code; the model goes on as if it had not, and takes the addresses of timers as never reused. What `add_event` does with a fired timer is not modelled.
- LoggerModel: date rollover, changes of prefix or path, failing opens and message formatting; the quota comparison in floating point is exact for file sizes below 2^53.
- MemListModel.MemList.Add: requires a limit other than zero; with limit zero the code dereferences a null tail. Buffers are values, so reuse of an allocation of equal length is not visible.
- Checksum.CheckSum: requires the sum of the words to be a signed 32-bit integer, as it is for every input of up to 65537 bytes; beyond that the signed accumulator overflows.
- Sockets, UDP, ICMP sending, shared memory queues, System V queues, `Queue`, `Queue1To1`: kernel plumbing, or members that would add nothing hard.
