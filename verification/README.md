# A model of greencloud in Dafny

greencloud serves a Linux network block device (NBD) from a master process that forwards every READ
and WRITE, as a UDP datagram with decimal fields, to a slave process holding a byte array. This
project models the parts of it whose correctness is not visible in any one function, and proves
what they promise. `dafny verify dfyconfig.toml` checks everything.

## Layout

- **Thread pool.** `WPriorityQueue.dfy` has the queue as objects (`Semaphore`, `WPriorityQueue`) and
  as a multiset with a semaphore value and tickets (`AtomicQueue`). `QueueThreads.dfy` has it under
  any number of threads, one step per semaphore, lock or heap operation, and proves that it refines
  `AtomicQueue`. `ThreadPool.dfy` puts the worker loop and the loops of Suspend, Resume and Stop on
  top, as steps over N workers, one controller and any number of callers of AddTask.
  `ThreadPoolInvariant.dfy` has the counting invariant, `ThreadPoolTheorems.dfy` the promises, and
  `ThreadPoolProgress.dfy` that calls return whatever is added meanwhile, with runs that reach what
  the promises speak of. `PoolThreads.dfy` composes the two: workers, controller and callers that go
  through the queue lock by lock; every run of theirs is a run of `ThreadPool`, and
  `PoolThreadsTheorems.dfy` has what follows, down to the steps at the lock. `Folding.dfy` has what
  arguments about runs and many threads share.
- **Codecs.** `Bytes.dfy` and `Decimal.dfy` model C strings and the decimal printers and scanners of
  libc. `RequestCodec.dfy` and `ReplyCodec.dfy` give each datagram as a function and prove the round
  trips; `SlaveDriverProxy.dfy`, `CloudStorage.dfy`, `SlaveGateway.dfy` and `SlaveStorage.dfy` are the
  imperative code, on arrays and class fields, proved to compute those functions.
- **Block protocol.** `BlockProtocol.dfy` is the path of a request from the NBD socket to the slave
  and back as a step system over the real datagrams, which may be delayed, reordered and lost.
  `BlockProtocolProof.dfy` has the invariant, `BlockProtocolTheorems.dfy` safety in all runs,
  `BlockProtocolReads.dfy` what the data of a READ reply is, `BlockProtocolProgress.dfy` that requests
  get answered.
- **NBD framing.** `NbdWire.dfy` (byte order, request and reply layout), `NbdDriverProxy.dfy` (reads
  and writes that may be short), `NbdShortRead.dfy` (a short read of the request header),
  `NbdReplyStream.dfy` (any number of threads in SendReply, and the client that decodes the stream),
  `NbdSession.dfy` (requests from the socket to the block protocol, and its answers back to that client).
- **Smaller stateful parts.** `Handleton.dfy` (double-checked locking), `Dispatcher.dfy` (objects that
  point at each other), `DirMonitor.dfy` (the status handshake of two threads), `SlaveHandshake.dfy`
  (the loop in which the master waits for a slave).

A run is a sequence of states, each reached from the one before by one enabled step of one thread;
every statement about runs holds for all of them, of any length and with any number of threads.

Each step system follows its code line by line: `ThreadPool.WorkerStep` src/thread_pool.cpp:123-155,
`ThreadPool.ControlStep` src/thread_pool.cpp:67-113, `QueueThreads.Next` include/wpriorityqueue.hpp:68-131,
`PoolThreads.Next` both of these, `BlockProtocol.DoIssue` src/cloud_storage.cpp:104-158, `BlockProtocol.DoSlaveReceive`
src/slave_driver_proxy.cpp:59-87, `BlockProtocol.DoSlaveExecute` include/slave_tasks.hpp:29-55,
`BlockProtocol.DoMasterReceive` src/slave_gateway.cpp:31-92, `BlockProtocol.DoSendReply`
src/nbd_driver_proxy.cpp:181-196, `NbdReplyStream.Next` src/nbd_driver_proxy.cpp:181-196 and 297-320,
`Handleton.Next` include/handleton.hpp:86-106, `DirMonitor.Next` src/plug_and_play.cpp:38-121.

## Results that say where the code does not do what one would expect

- The datagrams are copied as C strings. A WRITE's payload or a READ's bytes are carried exactly,
  whatever the receiver's memory held before, if and only if no NUL comes before their last byte
  (`RequestCodec.WriteExactIff`, `ReplyCodec.ReadExactIff`).
- A READ reply arrives whole for every length and id if and only if the string in the slave's memory
  ends within 4116 bytes (`ReplyCodec.ReplyBound`).
- A reply delivered a second time, at any later moment, ends the master
  (`BlockProtocolTheorems.DuplicateEndsProcess`); a reply does so if and only if no request awaits one
  under its id (`BlockProtocolTheorems.LookupFailsIff`).
- So a READ reply is exact up to the first NUL that is read, or that a WRITE stored in front of the
  byte, and on a new, zeroed device as soon as its range was written
  (`BlockProtocolReads.ReadsCarryContent`, `BlockProtocolReads.NulFreeReadsAreExact`).
- A Stop of a suspended pool never returns, and some run with any number of workers gets there; every
  other call returns (`ThreadPoolTheorems.StopWhileSuspendedHangs`, `ThreadPoolProgress.HangIsReached`,
  `ThreadPoolTheorems.CallsReturn`).
- The NBD request header is read with one `read`. A short one is noticed if and only if it misses part
  of the magic number (`NbdShortRead.ShortReadNoticedIff`). Any other one spoils the request or what
  follows it, because the bytes it missed stay in the socket (`NbdShortRead.ShortReadExactIff`); the
  request alone survives it under the exact condition of `NbdShortRead.ShortReadDataIff`, and
  `NbdShortRead.ShiftedWrite` is a WRITE whose header is read right and whose payload is shifted.
- The slave's parser stays inside its buffer if and only if the datagram has three separators, and for
  a WRITE the third is not at the very end (`SlaveDriverProxy.ParseableIff`). A failed `recvfrom` is
  reported and ignored, and then it does not (`SlaveDriverProxy.FailedReceiveLeavesBuffer`).
- DirMonitor's END_THREAD can be overwritten by RUNING if and only if the watch cannot be added
  (`DirMonitor.OverwrittenIff`).
- The master's handshake loop never resets `runner`. After any rejected datagrams a slave is accepted
  if and only if `runner` has not passed the header of its hello (`SlaveHandshake.NextHelloConnectsIff`);
  the late reply of another slave to a WRITE is enough to shut it out
  (`SlaveHandshake.LateReplyDeafens`).

## Model

| member | source | states |
|---|---|---|
| Tasks.TopExists | src/tptask.cpp:13-25 | a non-empty queue has an element that no other one exceeds in priority, so `top()` has something to return |
| Tasks.TopMeaning | src/tptask.cpp:13-25 | by the tasks' own fields: a user task is a top only when there are nothing but user tasks of no higher priority |
| WPriorityQueue.Semaphore.Post | src/semaphore.cpp:26-33 | the value goes up by one |
| WPriorityQueue.Semaphore.Wait | src/semaphore.cpp:35-42 | returns only from a positive value, which goes down by one |
| WPriorityQueue.Semaphore.TimedWait | src/semaphore.cpp:55-78 | times out exactly at 0 and then changes nothing |
| WPriorityQueue.WPriorityQueue.Push | include/wpriorityqueue.hpp:94-108 | adds exactly the new element and one unit, and keeps value and size equal; it is the atomic push |
| WPriorityQueue.WPriorityQueue.LockAndPop | include/wpriorityqueue.hpp:125-131 | from a non-empty heap one element leaves, and nothing else: a user task only when there were nothing but user tasks of no higher priority |
| WPriorityQueue.WPriorityQueue.Pop | include/wpriorityqueue.hpp:68-74 | takes a semaphore unit and such an element: the atomic take followed by the atomic remove |
| WPriorityQueue.WPriorityQueue.PopTimeout | include/wpriorityqueue.hpp:76-92 | pops such an element exactly when the semaphore is positive, and otherwise leaves the queue alone |
| QueueThreads.HeapIsNotEmpty | include/wpriorityqueue.hpp:125-131 | whoever is about to pop sees a non-empty heap: semaphore plus tickets equals its size |
| QueueThreads.StepRefines | include/wpriorityqueue.hpp:68-108 | every step of every thread keeps the invariant and is a step of the atomic queue or invisible; a timed pop gives up only when there is nothing to take |
| QueueThreads.RunIsSafe | include/wpriorityqueue.hpp:68-131 | in every run of any pushers and poppers, no pop meets an empty heap and the queue behaves atomically |
| QueueThreads.SomeoneGoesOn | include/wpriorityqueue.hpp:68-131 | in every run a thread in a call that does not wait on an empty semaphore can go on, or the holder of the lock can, coming nearer to its release |
| QueueThreads.PopsInOrder | include/wpriorityqueue.hpp:125-131 | in every run whoever pops takes an element of the heap, a user task only when there are nothing but user tasks of no higher priority, and is about to return it |
| QueueThreads.QueueConserves | include/wpriorityqueue.hpp:68-131 | in every run the elements given to Push are those on the heap, in the hand of a thread inside a call, or returned by a pop: none is lost, made up or doubled |
| QueueThreads.PopsBlock | include/wpriorityqueue.hpp:68-92 | a Pop that has begun can go on exactly while the semaphore is positive; a timed one always can, and gives up at 0, leaving the queue alone |
| QueueThreads.CallCanReturn | include/wpriorityqueue.hpp:68-131 | from every reachable state some continuation brings a call that does not wait on an empty semaphore to its return |
| QueueThreads.CallCanBeMade | include/wpriorityqueue.hpp:68-108 | every thread outside the queue can call Push with any element, a timed Pop, or a Pop when the semaphore is positive, and return |
| ThreadPoolInvariant.StepShape | src/thread_pool.cpp:123-155 | which semaphore, queue entry and program counter each step of ThreadFunc changes |
| ThreadPoolInvariant.PhaseMoves | src/thread_pool.cpp:143-149 | every worker step keeps the books of every phase: suspends, parked, woken, stops and stopped counted against both semaphores |
| ThreadPoolInvariant.PhaseKeeps | src/thread_pool.cpp:125-153 | the same for the counted workers and queue |
| ThreadPoolInvariant.ConservedKeeps | src/thread_pool.cpp:130-133 | what leaves the queue or a worker arrives at a worker or among the executed |
| ThreadPoolInvariant.PopHandshake | include/tp_sys_task.hpp:24-48 | a popped control task moves from the queue's count to the workers' |
| ThreadPoolInvariant.AddTaskKeeps | src/thread_pool.cpp:62-65 | AddTask, by any thread at any moment, keeps the invariant |
| ThreadPoolInvariant.ControlKeeps | src/thread_pool.cpp:67-113 | every turn of the loops of Stop, Suspend and Resume keeps the invariant |
| ThreadPoolInvariant.WorkerKeeps | src/thread_pool.cpp:123-155 | every step of every worker keeps the invariant |
| ThreadPoolInvariant.RunKeeps | src/thread_pool.cpp:62-155 | the invariant holds in every state of every run |
| ThreadPoolTheorems.SuspendIsBarrier | src/thread_pool.cpp:87-99 | when Suspend has returned, all workers are parked on pairwise different TPSuspend tasks and none can make a step |
| ThreadPoolTheorems.BarrierHolds | src/thread_pool.cpp:143-149 | until Resume or Stop is called no worker moves, nothing is executed, and what other threads add stays queued |
| ThreadPoolTheorems.AddTaskAdds | src/thread_pool.cpp:62-65 | AddTask can be called in every state, and adds to the queue one new task of the priority it was given, one unit to its semaphore, and nothing else |
| ThreadPoolTheorems.PopsInOrder | src/tptask.cpp:13-17 | in every run a worker pops, and then holds, a user task only when the queue has nothing but user tasks of no higher priority |
| ThreadPoolTheorems.ResumeCleansUp | src/thread_pool.cpp:101-113 | whenever the pool is neither suspended nor in a call, both handshake semaphores are 0 and no control task is queued or held, so the calls can alternate for ever |
| ThreadPoolTheorems.StopPreempts | src/thread_pool.cpp:71-78 | once Stop has made its pushes, every pop yields a TPStop |
| ThreadPoolTheorems.TasksAreConserved | include/wpriorityqueue.hpp:125-131 | in every state a task that was added is in exactly one place: queued, held by exactly one worker, or executed once |
| ThreadPoolTheorems.StopConserves | src/thread_pool.cpp:67-79 | when Stop has returned all workers have stopped, and added equals executed plus queued, as multisets; only user tasks are left over |
| ThreadPoolTheorems.StepDecreases | src/thread_pool.cpp:123-155 | during a call every step of a worker or the controller lowers one measure; a task from outside raises it by 5 |
| ThreadPoolTheorems.CallIsBounded | src/thread_pool.cpp:67-113 | so the number of all steps made during one call is bounded by the queue at its start and the tasks added meanwhile |
| ThreadPoolTheorems.CallGoesOn | src/thread_pool.cpp:67-113 | during a call some worker or the controller can always make a step, unless it is a Stop of a suspended pool |
| ThreadPoolTheorems.CallsReturn | src/thread_pool.cpp:67-113 | a run that cannot be extended is not inside Suspend, Resume, or a Stop of a pool that was not suspended |
| ThreadPoolTheorems.StopReturnsOnlyAwake | src/thread_pool.cpp:67-79 | whenever Stop has returned it had been called on a free pool, never on a suspended one |
| ThreadPoolTheorems.StopWhileSuspendedHangs | src/thread_pool.cpp:75-78 | a Stop of a suspended pool joins no worker and nothing but AddTask can happen any more |
| ThreadPoolTheorems.AllTasksExecuted | src/thread_pool.cpp:123-155 | when no worker of a pool that is neither suspended nor in a call can make a step, every task ever added has been executed exactly once |
| ThreadPoolProgress.StepAhead | src/thread_pool.cpp:67-155 | during a call each step it waits for brings its return nearer, and no other step puts it off: neither a task from outside nor one that a resumed worker executes |
| ThreadPoolProgress.CallNeedsBoundedHelp | src/thread_pool.cpp:67-113 | a call needs at most 6 * N + 3 such steps, whatever is queued and however much is added |
| ThreadPoolProgress.WaitIsBounded | src/thread_pool.cpp:75-98 | once Suspend waits or Stop joins, N workers and the controller make at most 5 * N + 1 steps in all, however many tasks other threads add |
| ThreadPoolProgress.PopsControlTask | src/tptask.cpp:13-25 | because every pop there yields a control task |
| ThreadPoolProgress.CallCanReturn | src/thread_pool.cpp:67-113 | from every reachable state inside a call some continuation leads to its return |
| ThreadPoolProgress.SuspendReturns | src/thread_pool.cpp:87-99 | from every reachable state of a free pool, Suspend can be called and leads, in some continuation, to a pool whose workers are all parked on a TPSuspend |
| ThreadPoolProgress.ResumeReturns | src/thread_pool.cpp:101-113 | from every reachable state of a suspended pool, Resume can be called and leads to a free pool, none of whose workers is parked |
| ThreadPoolProgress.StopReturns | src/thread_pool.cpp:67-79 | from every reachable state of a free pool, Stop can be called and leads to its return, with every worker out of its loop on a TPStop |
| ThreadPoolProgress.StopHangs | src/thread_pool.cpp:67-79 | from every reachable state of a suspended pool, Stop can be called and leads to the join in which nothing but AddTask can happen |
| ThreadPoolProgress.TasksCanBeExecuted | src/thread_pool.cpp:123-155 | from every reachable state of a free pool some continuation executes every task that was added, each once |
| ThreadPoolProgress.SuspendedIsReached | src/thread_pool.cpp:87-99 | for every number of workers Suspend returns in some run |
| ThreadPoolProgress.HangIsReached | src/thread_pool.cpp:67-79 | for every number of workers some run calls Stop on a suspended pool and hangs in its join |
| PoolThreads.StepFollows | src/thread_pool.cpp:62-155 | every step of a worker, the controller or a caller, outside the queue or at its semaphore, lock or heap, keeps the invariant and is one step of ThreadPool or does not show there |
| PoolThreads.RunRefines | src/thread_pool.cpp:62-155 | so every run at the lock is a run of ThreadPool: the steps that show, in their order, lead to the view of the state reached |
| PoolThreadsTheorems.SuspendIsBarrier | src/thread_pool.cpp:87-99 | when Suspend has returned, all workers are parked outside the queue on pairwise different TPSuspend tasks, and only callers of AddTask and the controller can make a step |
| PoolThreadsTheorems.TasksAreConserved | include/wpriorityqueue.hpp:94-131 | at the lock too, a task is on the heap, with one worker, or executed, in exactly one place from the moment it is put on the heap |
| PoolThreadsTheorems.PopsInOrder | include/wpriorityqueue.hpp:125-131 | a worker takes from the heap, and then holds, a user task only when there are nothing but user tasks of no higher priority |
| PoolThreadsTheorems.AddTaskArrives | src/thread_pool.cpp:62-65 | when a caller of AddTask announces its element, a task of the priority it was called with, and nothing else, joins those added |
| PoolThreadsTheorems.AddTaskCanBeMade | src/thread_pool.cpp:62-65 | every thread outside the queue can call AddTask in every reachable state, and some continuation at the lock adds its task |
| PoolThreadsTheorems.StepLeft | include/wpriorityqueue.hpp:94-131 | during a call each step that it waits for and each step of a worker or the controller inside the queue leaves less to do, and no caller of AddTask makes it more |
| PoolThreadsTheorems.WaitIsBounded | src/thread_pool.cpp:75-98 | once Suspend waits or Stop joins, N workers and the controller make at most 28 * N + 8 steps in all, counting each at the semaphore, the lock and the heap, whatever other threads add or do at the lock |
| PoolThreadsTheorems.CallGoesOn | src/thread_pool.cpp:67-113 | during a call a worker or the controller can make a step of that kind, or the caller of AddTask that holds the lock can go on, unless it is a Stop of a suspended pool |
| PoolThreadsTheorems.CallCanReturn | src/thread_pool.cpp:67-113 | from every reachable state inside a call some continuation at the lock, without further calls of AddTask, leads to its return |
| PoolThreadsTheorems.SuspendReturns | src/thread_pool.cpp:87-99 | at the lock too, Suspend of a free pool can be called from every reachable state and leads to one whose workers are all parked |
| PoolThreadsTheorems.ResumeReturns | src/thread_pool.cpp:101-113 | Resume of a suspended pool leads to a free pool, none of whose workers is parked |
| PoolThreadsTheorems.StopReturns | src/thread_pool.cpp:67-79 | Stop of a free pool leads to its return, with every worker out of its loop on a TPStop |
| PoolThreadsTheorems.SuspendedIsReached | src/thread_pool.cpp:87-99 | for every number of workers and other threads Suspend returns in some run at the lock |
| Bytes.CStringMeaning | src/slave_driver_proxy.cpp:219-227 | the C string at an address is everything before the first NUL |
| Bytes.CStringAppend | src/slave_driver_proxy.cpp:83 | what follows the first NUL does not matter to a string copy |
| Bytes.CopyCarries | src/slave_driver_proxy.cpp:82-83 | `strcpy` into uninitialised memory is exact up to and including the first NUL |
| Bytes.CopyExactIff | src/slave_driver_proxy.cpp:82-83 | it is exact for every old content of that memory if and only if no NUL comes before the last byte |
| Decimal.PrintMeaning | src/cloud_storage.cpp:112-115 | the printed numeral denotes the number and has no leading zero |
| Decimal.PrintLength | src/cloud_storage.cpp:112-115 | it fits k digits if and only if the number is below the k-th power of ten |
| Decimal.ScanPrinted | src/slave_driver_proxy.cpp:158-178 | a printed integer before a non-digit scans back to itself, and the scan stops right behind it |
| Decimal.ScannedNumber | src/slave_gateway.cpp:72-75 | `strtoul` and `strtol` of any printed integer: its value in range, modulo 2^64 below zero for `strtoul`, saturated beyond |
| Decimal.ScanSkips | src/slave_gateway.cpp:72-75 | spaces and a plus sign in front change nothing |
| Decimal.PrintInjective | src/cloud_storage.cpp:112-115 | different numbers have different numerals |
| RequestCodec.DatagramBound | src/cloud_storage.cpp:109-121 | the 4136-byte buffer holds every request of a given length, for all 64-bit offsets and positive 31-bit ids, if and only if the length is at most 4096 |
| RequestCodec.DatagramBoundTight | src/cloud_storage.cpp:109-121 | the bound is reached exactly |
| RequestCodec.HeaderInjective | src/cloud_storage.cpp:112-115 | no two requests print the same header |
| RequestCodec.BufferParsed | src/slave_driver_proxy.cpp:75-84 | a receive buffer with three number fields, a key and a NUL parses to those fields and the string behind them |
| RequestCodec.DatagramParsed | src/slave_driver_proxy.cpp:59-87 | what the slave makes of any datagram the master printed |
| RequestCodec.RequestRoundTrip | src/cloud_storage.cpp:104-148 | parsing what Write or Read prints gives back offset, length, id and key, and a WRITE's payload up to and including its first NUL |
| RequestCodec.WriteExactIff | src/slave_driver_proxy.cpp:80-84 | the whole payload arrives, whatever the heap held, if and only if it has no NUL before its last byte |
| ReplyCodec.ReplyBound | src/slave_driver_proxy.cpp:89-117 | a READ reply arrives whole for all lengths up to 4096 and all positive 31-bit ids if and only if the string at `m_buff.data()` is at most 4116 bytes |
| ReplyCodec.ReplyParsed | src/slave_gateway.cpp:62-92 | what the master makes of any reply the slave printed |
| ReplyCodec.ReplyRoundTrip | src/slave_driver_proxy.cpp:89-117 | parsing what SendReply prints gives back length, id and key, and a READ's bytes up to and including their first NUL |
| ReplyCodec.TwoCopies | src/slave_gateway.cpp:85-90 | after AddMessage and strcpy the string still starts with the bytes read |
| ReplyCodec.ReadExactIff | src/slave_gateway.cpp:85-90 | all bytes read arrive, whatever the heap held, if and only if none before the last is NUL |
| SlaveDriverProxy.GetNextParse | src/slave_driver_proxy.cpp:148-156 | stops right behind the next separator, or leaves the buffer if and only if there is none |
| SlaveDriverProxy.GetSizeT | src/slave_driver_proxy.cpp:158-163 | the 64-bit number at the front, and the next field |
| SlaveDriverProxy.GetUint | src/slave_driver_proxy.cpp:165-170 | the same, converted to 32 unsigned bits |
| SlaveDriverProxy.GetInt | src/slave_driver_proxy.cpp:172-178 | the same through `strtoul`, converted to a signed 32-bit int |
| SlaveDriverProxy.GetReqKey | src/slave_driver_proxy.cpp:180-185 | the key, and the position three bytes on |
| SlaveDriverProxy.GetNumbers | src/slave_driver_proxy.cpp:75-77 | the three number fields, unless a separator is missing |
| SlaveDriverProxy.ReceiveRequest | src/slave_driver_proxy.cpp:59-87 | for whatever `recvfrom` left in the zeroed buffer: the parser of the request codec, or a read beyond the buffer, exactly when it is not parseable |
| SlaveDriverProxy.FailedReceiveLeavesBuffer | src/slave_driver_proxy.cpp:67-78 | a failed `recvfrom` leaves a buffer that is not parseable |
| SlaveDriverProxy.ParseableIff | src/slave_driver_proxy.cpp:75-84 | the parser stays inside its buffer, for any datagram, if and only if that has three separators and, when a WRITE's key follows the third, that stands at 4132 or before |
| SlaveDriverProxy.AddInt | src/slave_driver_proxy.cpp:190-201 | appends a string and a separator, and leaves the rest of the buffer alone |
| SlaveDriverProxy.AddRequestType | src/slave_driver_proxy.cpp:203-217 | appends '0' for READ, '1' for every other key, and a separator |
| SlaveDriverProxy.AddMessage | src/slave_driver_proxy.cpp:219-227 | copies up to the first NUL, which is not copied |
| SlaveDriverProxy.PrintHeader | src/slave_driver_proxy.cpp:95-104 | length, id, key and NUL at the front of the buffer |
| SlaveDriverProxy.SendReply | src/slave_driver_proxy.cpp:89-117 | the loops fill the buffer with the datagram of the reply codec |
| HandleTable.FindRefinesMap | src/cloud_storage.cpp:249-264 | a search of the list is a lookup in a finite map |
| HandleTable.RemoveRefinesMap | src/cloud_storage.cpp:266 | removing the found entry removes its id, and only its id, from the map |
| HandleTable.RemoveKeepsOrder | src/cloud_storage.cpp:266 | the other entries keep their order, ids strictly decreasing and within 1..m_req_id |
| HandleTable.PushRefinesMap | src/cloud_storage.cpp:221-230 | a parked handle gets an id that was not in use |
| CloudStorage.CloudStorage.HandlerToId | src/cloud_storage.cpp:215-238 | the next id, a list entry for it, and the map extended by exactly it |
| CloudStorage.CloudStorage.IdToHandler | src/cloud_storage.cpp:240-272 | found if and only if the id is in the map, whatever the list's end node holds; its handle is returned, and exactly that entry is removed |
| CloudStorage.CloudStorage.Write | src/cloud_storage.cpp:104-135 | the id is parked before the datagram exists, and the buffer is the request codec's datagram |
| CloudStorage.CloudStorage.Read | src/cloud_storage.cpp:137-158 | the same for a READ, without payload |
| CloudStorage.DisconnectIsPrinted | src/cloud_storage.cpp:166-190 | the literal that Disconnect copies is a printed header, which the slave parses as DISCONNECT |
| SlaveStorage.MmapStorage.Write | src/mmap_storage.cpp:37-48 | the array with the bytes spliced in at the offset |
| SlaveStorage.MmapStorage.Read | src/mmap_storage.cpp:50-62 | the bytes of the array in that range |
| SlaveStorage.ReadAfterWrite | src/mmap_storage.cpp:37-62 | a read after a write sees the new bytes inside its range and the old ones outside, byte by byte |
| SlaveStorage.ExecuteWrite | include/slave_tasks.hpp:50-55 | the array has changed when the reply exists |
| SlaveStorage.ExecuteRead | include/slave_tasks.hpp:29-33 | the reply carries what the array holds |
| SlaveGateway.CreateDataFromBuff | src/slave_gateway.cpp:62-92 | for any full buffer: the reply under the handle parked for its id, the unknown-id exit, or a read beyond the buffer; the id is looked up and its entry removed before the key and the string are looked at |
| BlockProtocolProof.ReceiveKeeps | src/driver_proxy_gateway.cpp:30-46 | receiving a request keeps the invariant of the protocol; that it is kept as it was delivered is `AskedIsReceived` |
| BlockProtocolProof.IssueIds | src/cloud_storage.cpp:215-238 | a fresh id for the request, in the table under its handle |
| BlockProtocolProof.IssueKeeps | src/cloud_storage.cpp:104-158 | parking the handle and sending the datagram keeps the invariant, and no buffer overflows |
| BlockProtocolProof.ReplyLocallyKeeps | include/nbd_tasks.hpp:73-96 | FLUSH, TRIM and bad requests are answered at once, without the slave |
| BlockProtocolProof.LoseKeeps | src/cloud_storage.cpp:123-125 | a datagram that is lost takes nothing with it but its request |
| BlockProtocolProof.SlaveReceiveKeeps | src/slave_driver_proxy.cpp:59-87 | the slave parses every datagram in the network to the request it was printed from |
| BlockProtocolProof.SlaveWriteKeeps | include/slave_tasks.hpp:50-55 | a write at the slave: array, execution order and reply change together |
| BlockProtocolProof.SlaveReadKeeps | include/slave_tasks.hpp:29-33 | a read at the slave records what the array held |
| BlockProtocolProof.ExecuteSequential | src/mmap_storage.cpp:37-62 | the array is that of the executions one after the other, and each read returned what it held then |
| BlockProtocolProof.MasterReceiveKeeps | src/slave_gateway.cpp:31-92 | a delivered reply swaps its id back for the right handle and removes it |
| BlockProtocolProof.SendReplyKeeps | include/nbd_tasks.hpp:113-118 | the reply goes out once, and nothing works for its request any more |
| BlockProtocolTheorems.AskedIsReceived | src/driver_proxy_gateway.cpp:30-46 | in every run what the protocol works for are the requests that were delivered to it, each unchanged, in their order |
| BlockProtocolTheorems.AnyDatagramIsNext | src/cloud_storage.cpp:123-125 | each datagram on its way may be the next to arrive, whatever was sent before it, or may be lost |
| BlockProtocolTheorems.LookupNeverFails | src/slave_gateway.cpp:74-81 | in every run the failure branch is unreachable, every datagram parses, and the ids of all requests on their way are in the table, distinct and under the client's handles |
| BlockProtocolTheorems.RunOwned | src/cloud_storage.cpp:215-272 | in every state of every run, each entry of the table is the id of a request whose reply has not come back |
| BlockProtocolTheorems.LookupFailsIff | src/slave_gateway.cpp:74-81 | in every state of every run, a reply of any length, with any id, takes the failure branch if and only if no request awaits a reply under that id |
| BlockProtocolTheorems.DuplicateEndsProcess | src/slave_gateway.cpp:77-81 | delivering a reply datagram of a run a second time, at any later moment, takes the failure branch |
| BlockProtocolTheorems.RepliesCorrelate | src/slave_gateway.cpp:62-92 | every reply carries the handle of a request that was delivered and as many bytes as that asked for, and no request is answered twice |
| BlockProtocolTheorems.ExecutionOrderIsLinear | include/slave_tasks.hpp:29-55 | the execution order has each answered READ and WRITE once, as it was delivered, the array is that of these executions, and a request answered in one state comes before every request delivered after that state |
| BlockProtocolTheorems.ReadsSeeTheArray | include/slave_tasks.hpp:29-33 | every reply to a READ that was delivered carries the array, in the range that was asked for, after exactly the executions before it: up to the first NUL, and all of it without an early NUL |
| BlockProtocolReads.LastWriteHolds | src/mmap_storage.cpp:37-62 | byte by byte the client's sequential device holds what was last written there |
| BlockProtocolReads.FirstContentHolds | src/mmap_storage.cpp:37-62 | or what it held at first, where nothing was written |
| BlockProtocolReads.ContentMeaning | src/slave_driver_proxy.cpp:80-84 | what is known of a byte of the slave's array: that of the last WRITE there, unless a NUL precedes it in the payload, or the first content |
| BlockProtocolReads.ContentIsDevice | src/mmap_storage.cpp:37-48 | where something is known, the client's device holds the same |
| BlockProtocolReads.ContentHolds | src/mmap_storage.cpp:37-48 | after the same executions the slave's array holds what is known |
| BlockProtocolReads.DeviceFollows | src/mmap_storage.cpp:37-48 | with no early NUL in any executed WRITE, the slave's array is the client's device |
| BlockProtocolReads.ReadsCarryContent | src/nbd_driver_proxy.cpp:181-196 | every reply to a READ that was delivered has a place in the execution order, and each of its bytes, up to and including the first NUL, is what the requests executed before it left there, wherever that is known; nothing is assumed of the first content or of any WRITE |
| BlockProtocolReads.ReadsReturnLastWrites | src/nbd_driver_proxy.cpp:181-196 | so it is the byte that the last WRITE before it put there, if no NUL precedes it in that payload and the bytes of the READ before it are clean, and the first content if no WRITE before it put one there |
| BlockProtocolReads.ReadsAreLinearizable | src/nbd_driver_proxy.cpp:181-196 | when no WRITE executed before a READ that was delivered has an early NUL, its reply carries what the client's device holds in the range asked for: up to the first NUL, and all of it without an early NUL |
| BlockProtocolReads.NulFreeReadsAreExact | src/nbd_driver_proxy.cpp:181-196 | a READ of clean bytes only, each last written in front of any NUL of its payload and not NUL, is exactly what the client's device holds |
| BlockProtocolProgress.StepMoves | include/nbd_tasks.hpp:29-118 | every step but receiving a request moves one request on, answers it, or loses its datagram |
| BlockProtocolProgress.RunIsBounded | src/driver_proxy_gateway.cpp:30-46 | a run has at most six steps for each request it received |
| BlockProtocolProgress.WorkGoesOn | include/slave_tasks.hpp:29-55 | whatever works for a request can make its next step |
| BlockProtocolProgress.RequestIsAnswered | src/nbd_driver_proxy.cpp:95-196 | a request none of whose own datagrams was lost has been answered by exactly one reply under its handle when no step is left but receiving, whatever was lost of others |
| BlockProtocolProgress.EveryRequestIsAnswered | src/nbd_driver_proxy.cpp:95-196 | without loss, every request received has been |
| BlockProtocolProgress.RequestIsAccepted | src/driver_proxy_gateway.cpp:30-46 | in every state of every run exactly the requests of 64-bit offset for at most 4096 bytes inside the device are taken, and those without data |
| BlockProtocolProgress.RequestCanBeServed | src/nbd_driver_proxy.cpp:95-196 | from every reachable state each of them can be delivered, and some continuation ends with a reply under its handle, of the size it asked for |
| NbdWire.HeaderMeaning | src/nbd_driver_proxy.cpp:114-162 | a request is accepted if and only if it begins with the magic number in network byte order; its fields are then the big-endian numbers sent |
| NbdWire.CommandKeys | src/nbd_driver_proxy.cpp:125-163 | each command number gets a key of its own, and every other number BAD_REQUEST |
| NbdWire.NtohllConverts | src/nbd_driver_proxy.cpp:262-271 | Ntohll of the loaded word is the number its eight bytes spell in network byte order |
| NbdWire.NtohllInvolution | src/nbd_driver_proxy.cpp:262-273 | applied twice it is the identity, so it also serves as htonll |
| NbdWire.SwapConverts | src/nbd_driver_proxy.cpp:267-268 | the same for the byte swap of any word size |
| NbdWire.RequestRoundTrip | src/nbd_driver_proxy.cpp:114-141 | parsing what a client sends gives back type, handle, offset and length |
| NbdWire.CommandIs | src/nbd_driver_proxy.cpp:125-163 | what each command number makes of the header's fields and of the bytes behind the header |
| NbdWire.WholeRequestIs | src/nbd_driver_proxy.cpp:95-169 | byte by byte, of a whole header: type 0 is a READ and 1 a WRITE, of the length at the offset named there, a WRITE with the bytes that follow; 2, 3, 4 are DISCONNECT, FLUSH, TRIM, any other a bad request; all with the handle and status 0, and nothing else taken off the stream |
| NbdWire.ReplyHeaderMeaning | src/nbd_driver_proxy.cpp:171-179 | the client reads the magic number, the handle, and as error number the byte-swapped status, which SendReply stores as it is given |
| NbdWire.FrameMeaning | src/nbd_driver_proxy.cpp:171-196 | a reply on the wire is 16 bytes of header, then the data of a READ and of no other request |
| NbdDriverProxy.ReadAll | src/nbd_driver_proxy.cpp:275-295 | for every way of cutting the reads: done exactly with the next `count` bytes; an error; or a loop that, after `count` calls, goes on only because the stream has ended |
| NbdDriverProxy.WriteAll | src/nbd_driver_proxy.cpp:297-320 | for every way of cutting the writes: all of the buffer, or an error and a proper prefix |
| NbdDriverProxy.NBDDriverProxy.FillData | src/nbd_driver_proxy.cpp:125-163 | which fields each request type sets, each to the header's own; only a WRITE reads on, exactly its length |
| NbdDriverProxy.NBDDriverProxy.ReadHeader | src/nbd_driver_proxy.cpp:101-112 | one read, of any length down to 0 at the end of the stream, into a zeroed struct |
| NbdDriverProxy.NBDDriverProxy.ReceiveRequest | src/nbd_driver_proxy.cpp:95-169 | what it returns and what it leaves unread are those of `ReceivedAs` and `Unread`; a WRITE whose payload is not all there ends in an error or never |
| NbdDriverProxy.NBDDriverProxy.WriteParts | src/nbd_driver_proxy.cpp:190-195 | header and payload in one piece, or an error and a proper prefix; nothing after an error |
| NbdDriverProxy.NBDDriverProxy.SendReply | src/nbd_driver_proxy.cpp:181-196 | the whole frame, or an error and a proper prefix of it; on success the stream has grown by 16 bytes, the handle among them, and by the data of a READ, and of no other request |
| NbdShortRead.WholeRequest | src/nbd_driver_proxy.cpp:95-141 | with a whole header, a client's request and payload are received as meant and what follows is left unread |
| NbdShortRead.ShortReadNoticedIff | src/nbd_driver_proxy.cpp:114-118 | a short read is noticed if and only if it misses part of the magic number |
| NbdShortRead.ShortReadExactIff | src/nbd_driver_proxy.cpp:101-141 | the request is received as meant and the next one is read from where it begins if and only if the read of the header was not short |
| NbdShortRead.HeaderCut | src/nbd_driver_proxy.cpp:120-138 | which field survives a read of n bytes, each with its own condition |
| NbdShortRead.ShortReadDataIff | src/nbd_driver_proxy.cpp:101-141 | the request alone is received as meant if and only if its key survives, the missed bytes of the fields that its key uses are zero, and, for a WRITE that misses any byte, the whole payload is NUL |
| NbdShortRead.ShiftedWrite | src/nbd_driver_proxy.cpp:134-141 | a WRITE of 256 bytes, or a multiple, that misses its header's last byte gets all fields right and a shifted payload, whose last byte begins the next request |
| NbdReplyStream.NextKeeps | src/nbd_driver_proxy.cpp:189-195 | every step of every sender keeps framing and exclusion |
| NbdReplyStream.StreamIsFramed | src/nbd_driver_proxy.cpp:189-195 | for any number of callers and any short writes, the stream is whole frames and a proper prefix of at most one |
| NbdReplyStream.FrameIsFound | src/nbd_driver_proxy.cpp:171-196 | a client finds a frame at the front of the stream whatever follows, with the data of a READ and none otherwise |
| NbdReplyStream.PrefixIsIncomplete | src/nbd_driver_proxy.cpp:171-196 | and takes no proper prefix of one for a reply |
| NbdReplyStream.ClientDecodes | src/nbd_driver_proxy.cpp:181-196 | in every run a client that asked for the replies decodes exactly those that were sent, in order: status, handle, and for a READ its data |
| NbdReplyStream.RepliesAreConserved | src/nbd_driver_proxy.cpp:181-196 | in every run the replies that SendReply was called with are those written whole and those of calls that wait or write: none is lost, made up or written twice |
| NbdReplyStream.AnyCutIsPossible | src/nbd_driver_proxy.cpp:297-320 | every write may take any number of the bytes left of the header or of the data, or fail |
| NbdReplyStream.ReplyCanBeSent | src/nbd_driver_proxy.cpp:181-196 | before a write fails every thread can call SendReply with any reply, and some continuation writes it whole |
| NbdSession.ClientIsAnswered | src/nbd_driver_proxy.cpp:95-196 | in any run of the protocol whose answers are on the stream, a client that goes by its own requests decodes exactly them, each with the handle of the request that was delivered and as much data as that asked for |
| NbdSession.DeliveredAsSent | src/nbd_driver_proxy.cpp:95-169 | a whole READ or WRITE on the socket becomes that request of the protocol: its handle, offset, length and payload |
| Handleton.NextKeeps | include/handleton.hpp:86-106 | every step keeps the invariant of the double-checked lock |
| Handleton.OneInstance | include/handleton.hpp:86-106 | all calls that return, in any threads, return the same object; it is the only one created and is never deleted |
| Handleton.CreatedOnce | include/handleton.hpp:97-102 | `new` succeeds at most once |
| Handleton.SomeoneGoesOn | include/handleton.hpp:94-103 | a caller can always go on, or the holder of the lock can |
| Handleton.FastPath | include/handleton.hpp:86-93 | once the instance is stored every call returns it with its first load, whoever holds the lock |
| Handleton.HolderComesNearer | include/handleton.hpp:94-103 | each step of the lock's holder brings it nearer to its return, at most five, unless `new T` throws; its last one releases the lock |
| Handleton.CallCanReturn | include/handleton.hpp:86-106 | from every reachable state every thread can get its object |
| Handleton.ObjectIsReturned | include/handleton.hpp:86-106 | for every number of threads some run returns an object to any one of them |
| Dispatcher.RemovedKeepsOthers | include/dispatcher_callback.hpp:189-194 | swap-with-last and pop remove one occurrence and keep all others |
| Dispatcher.RemovedMeaning | include/dispatcher_callback.hpp:183-198 | from a list without duplicates exactly the callback goes, and no duplicate appears |
| Dispatcher.RemovedAt | include/dispatcher_callback.hpp:189-194 | what the swap leaves, at whichever position the callback was found |
| Dispatcher.CallBack.constructor | include/dispatcher_callback.hpp:107-115 | the callback points at its dispatcher and is appended to the list |
| Dispatcher.CallBack.Destroy | include/dispatcher_callback.hpp:117-124 | a dying callback leaves the list of the dispatcher it points at |
| Dispatcher.CallBack.OutOfService | include/dispatcher_callback.hpp:126-160 | the callback points nowhere, and its observer is told if it has a stop method |
| Dispatcher.Dispatcher.Remove | include/dispatcher_callback.hpp:182-198 | the search loop computes the swapped and popped list |
| Dispatcher.Dispatcher.NotifyAll | include/dispatcher_callback.hpp:173-180 | every registered callback gets the message once, and nothing else about it changes |
| Dispatcher.Dispatcher.Destroy | include/dispatcher_callback.hpp:164-171 | every registered callback is put out of service once |
| Dispatcher.World.NewCallBack | include/dispatcher_callback.hpp:107-115 | keeps: a callback points at a live dispatcher if and only if it is in that dispatcher's list, once |
| Dispatcher.World.DeleteCallBack | include/dispatcher_callback.hpp:117-124 | keeps it, and takes the callback out of the list |
| Dispatcher.World.NotifyAll | include/dispatcher_callback.hpp:173-180 | keeps it; exactly the callbacks that point at the dispatcher get the message, once each |
| Dispatcher.World.DeleteDispatcher | include/dispatcher_callback.hpp:164-171 | keeps it; exactly the callbacks that pointed at the dispatcher point nowhere, and those with a stop method are told once |
| DirMonitor.RunKeeps | src/plug_and_play.cpp:38-121 | after a good setup INIT lasts until RUNING, and after the destructor's store the loop is on its way out |
| DirMonitor.JoinReturns | src/plug_and_play.cpp:45-49 | after a good setup the destructor returns: until then a step is enabled, and every step brings it nearer |
| DirMonitor.SpinEnds | src/plug_and_play.cpp:42-43 | while the destructor spins on INIT the monitor moves towards RUNING |
| DirMonitor.DestructorReturns | src/plug_and_play.cpp:38-50 | after a good setup, from its call on, the destructor is at most 10 helpful steps from its return: one is always enabled, each brings it nearer, and no other step puts it off |
| DirMonitor.CanBeDestroyed | src/plug_and_play.cpp:38-50 | from every reachable state after a good setup some continuation destroys the monitor, its thread gone |
| DirMonitor.OverwrittenIff | src/plug_and_play.cpp:89-101 | some run overwrites END_THREAD by RUNING if and only if the watch cannot be added |
| DirMonitor.ShutdownHangs | src/plug_and_play.cpp:98-116 | from then on the loop never ends and the destructor never returns |
| DirMonitor.FailedInitEndsProcess | src/plug_and_play.cpp:58-101 | when inotify cannot be set up the status leaves INIT and the monitor thread ends the process |
| SlaveHandshake.SlaveData | src/cloud_storage.cpp:53-70 | the loops compute the specified outcome for every sequence of datagrams |
| SlaveHandshake.SkipString | src/cloud_storage.cpp:64-68 | the position behind the next NUL, if there is one |
| SlaveHandshake.TurnMeaning | src/cloud_storage.cpp:64-70 | byte by byte: `runner` goes behind the next NUL, and the datagram is accepted if and only if the string there is the magic one; a comparison without a difference by the end of the buffer leaves it |
| SlaveHandshake.SentIsHello | release/slave.cpp:123-132 | the slave's first message is a header of zeros, a NUL and the magic string |
| SlaveHandshake.HelloAcceptedIff | src/cloud_storage.cpp:64-70 | it is accepted if and only if `runner` has not passed its header |
| SlaveHandshake.FirstHelloConnects | src/cloud_storage.cpp:53-70 | a slave that reports first is accepted |
| SlaveHandshake.NextHelloConnectsIff | src/cloud_storage.cpp:53-70 | after any rejected datagrams it is accepted if and only if `runner` has not passed its header |
| SlaveHandshake.SecondHelloConnectsIff | src/cloud_storage.cpp:53-70 | after one rejected datagram it is accepted if and only if that one's first string is shorter than the header |
| SlaveHandshake.DeafAfterHeader | src/cloud_storage.cpp:53-70 | after more rejected datagrams than the header has characters no slave is ever accepted |
| SlaveHandshake.LongTextDeafens | src/cloud_storage.cpp:53-70 | any datagram that begins with a string at least as long as that header is rejected and shuts out the slave that reports next |
| SlaveHandshake.LateReplyDeafens | src/cloud_storage.cpp:53-70 | the late reply of another slave to any WRITE does |

## Left out

- Sockets, epoll, ioctl, mmap, inotify, signals and dlopen: their effects are steps or parameters (a datagram is delivered or lost, a read or write takes some bytes, a setup call fails).
- ThreadPoolProgress.CallNeedsBoundedHelp: that helpful steps which stay enabled are made is left to the scheduler.
- ThreadPool: one controller thread calls Suspend, Resume and Stop, Suspend and Resume alternate, and user tasks return; SetSize and Stop with a time-out are empty in the source.
- WPriorityQueue.WPriorityQueue: the heap is a multiset, because `std::priority_queue` promises no order among equal priorities; a failing or interrupted semaphore call is not modelled.
- QueueThreads.SomeoneGoesOn: that the thread which can go on is scheduled is left to the scheduler, and so is in PoolThreadsTheorems.CallGoesOn that a thread waiting for the lock gets it at some time.
- PoolThreads: a Push or Pop begins when it first touches shared state, and a task gets its number when its Push gets the lock; neither can be seen by any other thread. No user task calls AddTask, as none of the source's does.
- BlockProtocolTheorems.LookupNeverFails: assumes that the network does not duplicate datagrams, that a run has fewer than 2^31 - 1 requests, that the client stays inside the device and under the 4096 bytes that run.sh sets, and one worker at the slave, as slave_config.json has it.
- BlockProtocolReads.ReadsCarryContent: where a NUL precedes a byte in the payload of the last WRITE, the byte is the slave's old heap content and nothing is said about it.
- BlockProtocolTheorems.ReadsSeeTheArray: assumes that a NUL ends the slave's memory behind the bytes read within 4116 bytes; `AddMessage` has no other bound.
- BlockProtocol: FLUSH, TRIM and bad requests are one step; DISCONNECT, which ends both processes, is not a step.
- The error field of a reply from the slave: `CreateDataFromBuff` does not set `m_status`, so nothing is said about it; SendReply stores whatever it is given.
- More than one slave: `Offset` compares equal for all offsets (include/cloud_storage.hpp:46-51), so there is only one map entry.
- CloudStorage.CloudStorage.IdToHandler: reading the list's end node, as the source does when the id is missing, gives some number here and does not fault.
- CloudStorage.CloudStorage.Write: the bytes of `m_buff` are exactly `m_len`, and the datagram must fit the buffer, which `DatagramBound` turns into a bound on the length.
- NbdDriverProxy.ReadAll: the loop that never ends is watched for a given number of calls; a `write` that takes 0 bytes is not modelled.
- NbdReplyStream.ClientDecodes: a failed write ends the process, since nothing on a pool thread catches its exception; what a client does after that is not said.
- Handleton: ReleaseResources, and memory orders weaker than sequential consistency.
- Dispatcher.Dispatcher.NotifyAll: a callback that adds or removes callbacks while it is being notified; CallBack.OutOfService called by anyone but the dispatcher's destructor.
- DirMonitor: `m_thread_stt` is a plain variable that two threads share; it is taken as sequentially consistent.
- DirMonitor.RunKeeps: an interrupted epoll wait, which ends the process; the file name given to the callbacks.
- SlaveHandshake: ports and addresses; a read past the end of the buffer is an outcome of its own.
- RequestEngine and Factory: the loop that reads a ready gateway and adds what it read to the pool is one step of each module that needs it.
- MemoryStorage and DiskStorage, which do not implement the present Storage interface; Logger, Singleton, the JSON configuration and the scripts.
