# Verified kernel of the game server engine

A Dafny model of the stateful and concurrent kernel of a distributed game-server engine and of its byte-level
codecs, with proofs. `dafny verify dfyconfig.toml` checks everything.

What the project covers, by module:

- **RWLock**: the writer-preferring read/write lock. Every mutex-protected section is an atomic step of a machine
  with any number of calls (one call of lock with its unlock; a thread that locks again makes another); the condition
  variables are sets of sleeping and of notified waiters, and spurious wakeups may happen at any time. `CRWLock` is the
  object, section by section.
- **ThreadBase**, **ThreadControl**: the pause / resume / quit handshake of a worker thread with one controlling
  thread, at the level of single atomic loads and stores: the machine and its pauses, then what resume and quit bring
  about.
- **ConnectionProtocol**, **ConnectionLifetime**, **ConnectionAcks**, **ConnectionThreads**, **ConnectionIndex**,
  **Broadcast**, **NetRunnable**, **NetDelivery**: connections shared by a net thread and logic threads. The first is
  the two-thread protocol in which raw pointers travel through FIFO queues, with what each of its steps keeps; the
  second what holds in all its runs; the third what becomes of every notification and every packet, counted over a run;
  the fourth has the objects that take its steps; then the net thread's index by id and by type; the raw buffers of
  broadcast packets; the net thread's handling of a batch, tied to both the index and the protocol; and what a batch
  hands to each connection.
- **PendingResponses**, **RpcSystem**, **RpcFate**: the registry of requests that await a response; requests,
  responses, timeouts and holders in any interleaving over it; and what becomes of every request and every response.
- **Basics**, **Bytes**: what the others share, among it integers stored in little-endian bytes.
- **MerkleDamgard**, **Sha1**, **Md5**: one specification of hashing by padding and block folding, and the two
  incremental objects refining FIPS 180-4 and RFC 1321. **Sha1Answers** and **Md5Answers** say what the shared
  primitives are bit by bit, and prove one published digest of each.
- **Base64** (section 4 of RFC 4648), **BufFile**, **NativeMessage**, **FreshMessage** and **NativeWire** (the
  growable buffer, the database messages, what unpacking them into fresh objects adds, and their bytes), **Utf8**
  (cutting text at lead bytes, and at code points where it is made of them),
  **Encryptor** (the two-wheel stream cipher), **Placeholder** (filling a query template in place).
- **FixMemoryPool**, **RoundRobin**, **UserCenter**: the block pool, the service selector with health marks, and
  the assignment of players to game servers.

## Where the code and its claims part

The model follows the code. In these places a property one would expect is false, and its exact condition is
proved:

- A request whose response never comes is not timed out. The service registers its timeout ticker with interval 0
  and gives the ticker manager a callback of its own; the manager detaches a one-shot ticker before calling, and the
  callback then asks the detached ticker for its context and gets 0. A run of the service keeps every pending request
  answerable, its ticker armed or a response queued, if and only if no timeout ticker fires in it before a readable
  response of its session is queued (`RpcSystem.ServiceAnswerableIff`). A request that has lost its timeout stays so
  until a response of it arrives or its holder goes (`LostStays`), and no request is ever completed by a timeout
  (`ServiceNeverTimesOut`). `LostTimeout` is the failing run, and `AnswerableIffContextKept` says what would mend it:
  an interval other than 0, or no callback of the manager's own.
- `pause` can sleep for ever if `onProcess` asks the worker to stop while the pause is requested. A run from any
  reachable state with a sleeping pause wakes it if and only if the worker is still in its loop, takes its at most nine
  steps to the notification, and the callback that it is in or about to call does not ask it to stop
  (`ThreadBase.PauseReturnsIff`); once the callback has asked, nothing ever wakes the pause (`StopMeansForever`,
  `PauseWokenIffWorkerStays`). `PauseCanHang` is such a run from the start.
- A quit is lost if and only if it looks at the state before the thread has made its first store: the state is still
  None then, quit takes the thread for one that is over, and the thread runs on (`ThreadControl.QuitLostIff`,
  `EarlyQuitIsLost`). Once quit has stored, the worker's own steps end the thread, at most eight of them
  (`QuitReaches`, `QuitIff`).
- A send to an id that is not connected makes the net thread drop the rest of its batch, disconnect
  acknowledgements included. `NetRunnable.DestroyedIffAckReached` says exactly which take effect. No raw pointer is
  ever used after destruction all the same (`ConnectionLifetime.PointersAlive`).
- The round-robin counter is never initialised and wraps at 2^32: it is fair from every start, for ever, if and
  only if the number of services divides 2^32 (`RoundRobin.AlwaysBalancedIff`). Its ten probes find a service that is
  surely healthy if and only if the number n of services and the counter allow it (`NeverFailsExactly`): always for up
  to 6 services and for 8, never for more than 10, and for 7, 9 and 10 if and only if the counter is at most 2^32 - n,
  or at least 2^32 - 10 + n (`ReachesByNumber`).
- A native message survives packing and unpacking into every object of its class if and only if it needs at most 65535
  bytes (`NativeMessage.RoundTrip`): longer strings are skipped silently, and unpacking takes a 16-bit size and ignores
  failed reads. Into a fresh object it also survives if the 65536 bytes that the size drops are those of 32768 empty
  strings at the end of its list, and in no other case (`FreshMessage.FreshRoundTrip`).
- A broadcast to a list decodes to what was passed if and only if there are at most 65535 ids
  (`Broadcast.EncodeToList`). A broadcast to a type does if and only if at most 65535 ids are excluded, the type name
  has no NUL, and the ids and the payload stand where the 16-bit length of the type name points; for a name of at most
  65535 bytes they do (`Broadcast.EncodeToKind`), for a longer one that place is inside the name (`FoundInName`).
- The pool's batch size is a 32-bit product: its blocks lie inside their batch if and only if the product does not
  wrap (`FixMemoryPool.SlicesFitIff`).
- `substr` of a UTF-8 text is right even where `pos + count` wraps (`Utf8.EndsGiveSlice`).

## Assumptions

- One queue of a logic service is FIFO and dispatched by one thread at a time; the network layer reports a connect
  of a connection at most once, a disconnect at most once, and no connect after the disconnect. A connection may be
  disconnected without ever having been reported connected, as a websocket is that closes before its handshake.
- `size_t` is 64 bits, integers are little-endian and structures are laid out with natural alignment; a string is
  shorter than 2^63 bytes; signed 32-bit sizes and cursors stay below 2^31.
- The notifications come from `core_connection.cpp:130-168`, base connections are made and released in
  `base_connection_mgr_impl.cpp:79-151`, responses are dispatched in `message_dispatcher.cpp:79-133`, one-shot tickers
  are detached in `ticker_mgr_impl.cpp:133-152` and asked for their context in `ticker.cpp:92-98`, and the fixed-size
  reads and writes of the buffers are the templates at `buf_file.h:40-50` and `buf_file.h:76-86`.
- What a callback decides (onInit, onProcess, a connection factory), whether the transporter takes a message, what
  the random generator draws and what SQL escaping returns are parameters.

## Model

| member | source | states |
|---|---|---|
| RWLock.MutualExclusion | engine/inc/libBaseCommon/rw_lock.h:29-72 | in every reachable state of any number of calls there is at most one writer and never a reader beside it; the read count is the readers inside, the write count the waiting writers plus the active one |
| RWLock.WriterPreference | engine/inc/libBaseCommon/rw_lock.h:41-49 | in no run does a reader get in while any writer waits or writes |
| RWLock.NeverStuck | engine/inc/libBaseCommon/rw_lock.h:52-72 | no lost wakeup: whenever nobody holds the lock and someone waits, some notified waiter finds its predicate true and its next step takes the lock |
| RWLock.StepKeepsInv | engine/inc/libBaseCommon/rw_lock.h:29-72 | exclusion, the counters, and the wakeup conditions together are kept by every step of every call, spurious wakeups included |
| RWLock.CRWLock.BeginLockRead | engine/inc/libBaseCommon/rw_lock.h:41-49 | lock for reading up to entering or blocking is the machine's step, and it reports which of the two happened |
| RWLock.CRWLock.AwaitRead | engine/inc/libBaseCommon/rw_lock.h:44-48 | a woken reader checks again, and enters only when no writer is counted |
| RWLock.CRWLock.BeginLockWrite | engine/inc/libBaseCommon/rw_lock.h:31-40 | lock for writing counts the writer before it waits |
| RWLock.CRWLock.AwaitWrite | engine/inc/libBaseCommon/rw_lock.h:35-39 | a woken writer enters only when nobody is inside |
| RWLock.CRWLock.UnlockForRead | engine/inc/libBaseCommon/rw_lock.h:64-71 | the last reader out notifies a writer exactly when one is counted, whichever sleeper the scheduler picks |
| RWLock.CRWLock.UnlockForWrite | engine/inc/libBaseCommon/rw_lock.h:54-63 | the last writer out notifies every reader, any other writer one writer |
| ThreadBase.PauseHolds | engine/src/libBaseCommon/thread_base.cpp:146-155 | once a pause that moved Normal to Pause1 returns, the worker is outside onProcess and cannot start it, in any interleaving, until resume or quit stores |
| ThreadBase.PauseReturnsIff | engine/src/libBaseCommon/thread_base.cpp:96-155 | for every reachable state with a sleeping pause and every run from it: the run wakes the pause if and only if the worker is still in its loop, takes the steps that separate it from the notification, and its callback does not ask it to stop; and those steps suffice |
| ThreadBase.StopMeansForever | engine/src/libBaseCommon/thread_base.cpp:96-155 | a run in which the callback asks to stop before the notification is followed by no wakeup, however it goes on |
| ThreadBase.WokenReturns | engine/src/libBaseCommon/thread_base.cpp:146-155 | a woken pause returns in one step of its own, before which the worker at most releases the mutex |
| ThreadBase.PauseWokenIffWorkerStays | engine/src/libBaseCommon/thread_base.cpp:96-155 | some continuation of at most nine steps wakes a sleeping pause if and only if the worker has not left its loop; if it has, no continuation does |
| ThreadBase.PauseCanHang | engine/src/libBaseCommon/thread_base.cpp:123-155 | a run from the start that leaves the worker finished and the pause asleep for ever |
| ThreadBase.AtMostOneStartAfterQuit | engine/src/libBaseCommon/thread_base.cpp:96-139 | after quit has stored, at most one more onProcess starts |
| ThreadBase.DestroyedOnce | engine/src/libBaseCommon/thread_base.cpp:89-127 | onDestroy runs at most once in every run, and exactly once by the end of the thread |
| ThreadControl.ResumeIff | engine/src/libBaseCommon/thread_base.cpp:96-163 | for every reachable state with a parked worker and every run from it with one resume: the worker gets into onProcess if and only if resume comes to its store and the worker has after that the one to four steps it needs |
| ThreadControl.ResumeReaches | engine/src/libBaseCommon/thread_base.cpp:157-163 | when a resume has stored, the worker's own steps take it into onProcess, at most four of them |
| ThreadControl.QuitIff | engine/src/libBaseCommon/thread_base.cpp:96-139 | for every reachable state of a thread that has begun and every run from it with one quit: the thread ends if and only if quit stores and leaves the worker the steps it needs, or the worker is over without it; onDestroy has then run exactly once |
| ThreadControl.QuitReaches | engine/src/libBaseCommon/thread_base.cpp:129-139 | once quit has stored, the worker is never blocked and its own steps, at most eight, end the thread |
| ThreadControl.QuitLostIff | engine/src/libBaseCommon/thread_base.cpp:84-135 | a quit of a thread not yet over has no effect if and only if it loads the state before the thread has stored Normal |
| ThreadControl.EarlyQuitIsLost | engine/src/libBaseCommon/thread_base.cpp:84-135 | the failing run: quit right after the start leaves everything as it was |
| ThreadControl.CallbackDecides | engine/src/libBaseCommon/thread_base.cpp:89-125 | when onInit fails or onProcess asks to stop, no onProcess starts any more and onDestroy is next; otherwise the worker looks for a quit next |
| ConnectionLifetime.PointersAlive | engine/src/libCoreCommon/net_runnable.cpp:96-214 | in every run, each core connection reached through a raw pointer by either thread (queued acknowledgements and sends, notifications, a base connection's pointer) is not yet destroyed, even though batches can be abandoned |
| ConnectionLifetime.DestroyedLast | engine/src/libCoreCommon/core_connection_mgr.cpp:236-256 | a destroyed connection has no base connection, no disconnect notification in progress and no pointer left in any queue or batch |
| ConnectionLifetime.ShutdownOnce | engine/src/libCoreCommon/base_connection.cpp:96-114 | no run queues more than one shutdown request for a connection |
| ConnectionLifetime.ShutdownIffAsked | engine/src/libCoreCommon/base_connection.cpp:96-114 | a run queues a shutdown request for a connection not closing yet exactly once if its base connection asks for it at all, and never otherwise |
| ConnectionAcks.DisconnectFate | engine/src/libCoreCommon/logic_runnable.cpp:242-269 | in every run each disconnect notification posted is dispatched once or still to be dispatched; each dispatch that ends queues exactly one disconnect-ack; and then exactly one of three holds: the connection is destroyed, its ack is in a queue or batch, or a batch that held the ack was abandoned |
| ConnectionAcks.ConnectFate | engine/src/libCoreCommon/logic_runnable.cpp:212-240 | in every run each connect notification posted is accepted, refused or still to be dispatched; each outcome queues exactly one connect-ack that says so; and the base connection exists exactly from the accepted connect to the end of the disconnect |
| ConnectionAcks.PacketsInOrder | engine/src/libCoreCommon/net_message_queue.cpp:21-37 | packets leave in the order in which they were queued, none lost and none added: what was there and what was queued is what was handled or abandoned and what is there |
| ConnectionAcks.PacketFate | engine/src/libCoreCommon/net_runnable.cpp:96-214 | each packet queued is, with its multiplicity, still queued or in the batch, handled, or abandoned with a batch |
| ConnectionLifetime.StepKeepsInv | engine/src/libCoreCommon/logic_runnable.cpp:212-269 | the invariant behind it: nothing with a pointer to a connection stands behind its disconnect-ack, whatever either thread does |
| ConnectionThreads.ConnectedIsNew | engine/src/libCoreCommon/logic_runnable.cpp:212-240 | in every run, a connect notification about to be dispatched is of a connection that never had a base connection |
| ConnectionThreads.CNetMessageQueue.SendPacket | engine/src/libCoreCommon/net_message_queue.cpp:21-28 | a packet goes to the end of the queue |
| ConnectionThreads.CNetMessageQueue.Recv | engine/src/libCoreCommon/net_message_queue.cpp:30-37 | the receiver gets everything queued, oldest first, and the queue is empty |
| ConnectionThreads.CNetMessageQueue.Receive | engine/src/libCoreCommon/net_runnable.cpp:96-100 | taking a batch is the receive step of the protocol |
| ConnectionThreads.CBaseConnection.SendData | engine/src/libCoreCommon/base_connection.cpp:56-72 | a send queues a packet that carries the raw pointer |
| ConnectionThreads.CBaseConnection.RequestShutdown | engine/src/libCoreCommon/base_connection.cpp:96-114 | only the first call queues a shutdown request |
| ConnectionThreads.CBaseConnectionMgrImpl.OnConnect | engine/src/libCoreCommon/logic_runnable.cpp:222-237 | an accepted connection gets a new base connection and is acknowledged before its callbacks can send; a refused one leaves no trace |
| ConnectionThreads.CBaseConnectionMgrImpl.BeginOnDisconnect | engine/src/libCoreCommon/logic_runnable.cpp:242-256 | beginning to dispatch a disconnect notification is the protocol's step: the base connection is out of the map, not yet released, and its callbacks may still use it |
| ConnectionThreads.CBaseConnectionMgrImpl.DispatchConnected | engine/src/libCoreCommon/logic_runnable.cpp:212-240 | dispatching a connect notification takes the objects of its service from one state of the protocol to the next, and appends one connect-ack, of success or failure, to the queue |
| ConnectionThreads.CBaseConnectionMgrImpl.EndOnDisconnect | engine/src/libCoreCommon/logic_runnable.cpp:252-269 | ending it is the protocol's other step: the base connection is released and then the disconnect-ack of its connection, and nothing else, is appended to the queue |
| ConnectionThreads.CBaseConnectionMgrImpl.Use | engine/src/libCoreCommon/base_connection.cpp:56-114 | sending through or shutting down a base connection is the protocol's step |
| ConnectionIndex.ReachesExactlyOnce | engine/src/libCoreCommon/core_connection_mgr.cpp:175-205 | a broadcast to a type reaches every live connection of the type that is not excluded exactly once, and nothing else |
| ConnectionIndex.CreateKeepsValid | engine/src/libCoreCommon/core_connection_mgr.cpp:207-234 | creating keeps the lists by type and the map by id in agreement, each live connection listed exactly once, under an id not used before |
| ConnectionIndex.DestroyKeepsValid | engine/src/libCoreCommon/core_connection_mgr.cpp:236-256 | destroying keeps that agreement and removes just that id |
| ConnectionIndex.CoreConnectionMgr.CreateCoreConnection | engine/src/libCoreCommon/core_connection_mgr.cpp:207-234 | a new connection of the type under a new id; all others stay |
| ConnectionIndex.CoreConnectionMgr.DestroyCoreConnection | engine/src/libCoreCommon/core_connection_mgr.cpp:236-256 | the connection leaves both maps; an unknown id changes nothing |
| ConnectionIndex.CoreConnectionMgr.GetCoreConnectionBySocketId | engine/src/libCoreCommon/core_connection_mgr.cpp:166-173 | found exactly when live, with that id |
| ConnectionIndex.CoreConnectionMgr.Broadcast | engine/src/libCoreCommon/core_connection_mgr.cpp:175-205 | the deliveries are those to the not excluded connections of the type, in list order |
| Broadcast.EncodeToList | engine/src/libCoreCommon/base_connection_mgr.cpp:185-204 | nothing is sent for no ids; otherwise type, ids and payload lie in disjoint regions, and the net side decodes exactly what was passed if and only if there are at most 65535 ids |
| Broadcast.EncodeToKind | engine/src/libCoreCommon/base_connection_mgr.cpp:154-183 | the net side decodes exactly what was passed if and only if the name has no NUL, at most 65535 ids are excluded, and ids and payload stand where the name's 16-bit length points, as they do for a name of at most 65535 bytes |
| Broadcast.DecodesWhereFound | engine/src/libCoreCommon/net_runnable.cpp:238-251 | the reading side of that, for type names of any length |
| Broadcast.NothingToFind | engine/src/libCoreCommon/base_connection_mgr.cpp:154-183 | without excluded ids and payload a NUL-free name of any length is decoded right |
| Broadcast.FoundInName | engine/src/libCoreCommon/base_connection_mgr.cpp:154-183 | for a longer name the ids and the payload would have to stand inside the name itself |
| Broadcast.DecodesToList | engine/src/libCoreCommon/net_runnable.cpp:217-236 | the reading side of that if-and-only-if, for any buffer laid out so |
| Broadcast.DecodesToKindWell | engine/src/libCoreCommon/net_runnable.cpp:238-251 | the type name, the excluded ids and the payload are all read back |
| Broadcast.DecodesToKindBadly | engine/src/libCoreCommon/net_runnable.cpp:238-251 | a NUL in the name or too many excluded ids are always decoded to something else |
| NetRunnable.CNetRunnable.HandlePacket | engine/src/libCoreCommon/net_runnable.cpp:100-251 | one packet changes the index and the deliveries as the specification of handling says, and the index stays consistent |
| NetRunnable.CNetRunnable.SendToList | engine/src/libCoreCommon/net_runnable.cpp:217-236 | ids that are not connected are passed over |
| NetRunnable.CNetRunnable.ProcessBatch | engine/src/libCoreCommon/net_runnable.cpp:96-256 | a batch is handled in order until a send to an unknown id abandons the rest |
| NetRunnable.DestroyedIffAckReached | engine/src/libCoreCommon/net_runnable.cpp:177-214 | a live connection is destroyed by a batch if and only if the batch holds its disconnect-ack with no earlier send to an id unknown, or acknowledged away, by then |
| NetRunnable.AckCanBeDropped | engine/src/libCoreCommon/net_runnable.cpp:199-214 | a two-packet batch that leaves an acknowledged connection behind |
| NetRunnable.HandleRefinesLifetime | engine/src/libCoreCommon/net_runnable.cpp:96-214 | handling a packet of a batch is the handling step of the lifetime protocol, on the live connections and on the rest of the batch |
| NetRunnable.BroadcastToKindEndToEnd | engine/src/libCoreCommon/net_runnable.cpp:238-251 | from the buffer to the connections: the payload goes exactly once to each live connection of the type that is not excluded, and to no other |
| NetRunnable.BroadcastToListEndToEnd | engine/src/libCoreCommon/net_runnable.cpp:217-236 | the payload goes to each live connection once for every time its id is listed, and to no other |
| NetDelivery.BatchDelivers | engine/src/libCoreCommon/net_runnable.cpp:96-256 | a batch hands to each connection exactly the messages of the packets that are for it, in order: direct sends, sends to its id, once for every time a list has its id, once for every broadcast to its type that does not exclude it; until the batch ends or is abandoned |
| NetDelivery.DirectDelivers | engine/src/libCoreCommon/net_runnable.cpp:187-196 | a direct send hands its message to its connection once, and nothing else to any |
| NetDelivery.IdDelivers | engine/src/libCoreCommon/net_runnable.cpp:198-214 | a send to an id hands its message once to the connection live under it, if and only if there is one, and nothing else to any |
| PendingResponses.AddKeepsValid | engine/src/libCoreCommon/core_service.cpp:388-418 | after adding, a session with a holder stands exactly once in that holder's list, at its stored iterator, and nothing else does |
| PendingResponses.TakeKeepsValid | engine/src/libCoreCommon/core_service.cpp:367-386 | taking a session keeps the map, the lists and the stored iterators in agreement |
| PendingResponses.CancelKeepsValid | engine/src/libCoreCommon/core_service.cpp:420-440 | cancelling a holder keeps that agreement |
| PendingResponses.CancelExact | engine/src/libCoreCommon/core_service.cpp:420-440 | cancelling removes exactly the sessions of the holder, and leaves every other entry and list as it was |
| PendingResponses.TakeUndoesAdd | engine/src/libCoreCommon/core_service.cpp:367-418 | adding and then taking a session gives back the same pending requests and lists |
| PendingResponses.CoreService.GenSessionId | engine/src/libCoreCommon/core_service.cpp:324-331 | the next number modulo 2^64, never 0 |
| PendingResponses.CoreService.AddPendingResponseInfo | engine/src/libCoreCommon/core_service.cpp:388-418 | a session already pending is refused and nothing changes; any other is registered with its holder |
| PendingResponses.CoreService.GetPendingResponseInfo | engine/src/libCoreCommon/core_service.cpp:367-386 | the entry is handed out and gone from the map and from its holder's list |
| PendingResponses.CoreService.DelPendingResponseInfo | engine/src/libCoreCommon/core_service.cpp:420-440 | the loop over a holder's list cancels the holder |
| RpcSystem.AtMostOnce | engine/src/libCoreCommon/core_service.cpp:333-418 | over fewer than 2^64 requests and any interleaving of responses and timeouts, each session completes at most once, and session 0 never |
| RpcSystem.FreshSession | engine/src/libCoreCommon/core_service.cpp:324-331 | the id drawn for the next request is nonzero and was never in use, so the duplicate check drops no request |
| RpcSystem.NoCallbackOnceHolderGone | engine/src/libCoreCommon/service_invoke_holder.cpp:29-46 | once a holder is destroyed or reassigned no callback registered under its old id ever runs, even with responses and timeouts already queued; requests of other holders are untouched |
| RpcSystem.ServiceAnswerableIff | engine/src/libCoreCommon/core_service.cpp:24-42 | a run of the service as it is keeps, in every state it passes, the ticker of every pending request armed or a response queued, if and only if every timeout ticker that fires in it does so while a readable response of its session is queued |
| RpcSystem.LostStays | engine/src/libCoreCommon/core_service.cpp:333-386 | a request that has lost its timeout stays pending with nothing to answer it, in every run in which no readable response of it arrives and its holder stays |
| RpcSystem.AnswerableIffContextKept | engine/src/libCoreCommon/core_service.cpp:400-405 | what would mend it: with other intervals or callbacks, every run keeps every pending request answerable if and only if a firing ticker passes on its context |
| RpcSystem.LostTimeout | engine/src/libCoreCommon/core_service.cpp:400-405 | when it does not, one request and its timeout leave the request pending with nothing left to answer it |
| RpcSystem.ServiceNeverTimesOut | engine/src/libCoreCommon/core_service.cpp:333-365 | with the tickers as the service sets them up, no request is ever completed by a timeout |
| RpcSystem.StepKeepsInv | engine/src/libCoreCommon/core_service.cpp:324-440 | sessions pending and completed stay apart and fresh, holders of pending sessions exist, tickers belong to pending sessions: kept by every step |
| RpcFate.RequestFate | engine/src/libCoreCommon/core_service.cpp:333-440 | over fewer than 2^64 requests and any interleaving, a session is registered at most once, and a registered one is in exactly one of three states: pending as it was registered, completed exactly once and under its holder, or cancelled by the end of its holder, which holder 0 never has; one never registered is never completed |
| RpcFate.LogIsEffective | engine/src/libCoreCommon/core_service.cpp:333-386 | the completions of a run are exactly the readable responses that found their session pending, in order, each with the timeout flag of its response |
| RpcFate.ResponsesInOrder | engine/src/libCoreCommon/core_service.cpp:333-365 | responses and timeouts are dispatched in the order they were queued, none lost and none added |
| RpcSystem.Service.Invoke | engine/src/libCoreCommon/service_invoker.cpp:94-107 | a service found unhealthy stops the request before a session id is drawn; a request that the transporter takes is registered with its ticker armed; a refused one only spends a session id |
| RpcSystem.Service.FireTicker | engine/src/libCoreCommon/core_service.cpp:24-42 | a one-shot ticker leaves its node, then the timeout handler runs with the context that asking the ticker gives |
| RpcSystem.Service.OnRequestMessageTimeout | engine/src/libCoreCommon/core_service.cpp:333-365 | a timeout queues a response exactly when its session is pending |
| RpcSystem.Service.DispatchResponse | engine/src/libCoreCommon/core_service.cpp:367-386 | a response of a pending session is logged as its completion, with its holder and the response's timeout flag, and disarms the ticker; one that is unreadable, unknown or without a session does nothing |
| RpcSystem.Service.ConstructHolder | engine/src/libCoreCommon/service_invoke_holder.cpp:7-27 | every holder gets an id of its own |
| RpcSystem.Service.DestructHolder | engine/src/libCoreCommon/service_invoke_holder.cpp:42-46 | destroying a holder cancels its sessions and their tickers |
| RpcSystem.Service.AssignHolder | engine/src/libCoreCommon/service_invoke_holder.cpp:29-40 | assigning to itself does nothing; otherwise the target's sessions are cancelled and it gets a new id |
| MerkleDamgard.ZeroCountIsLeast | engine/src/libBaseCommon/sha1.cpp:176-221 | the zero bytes of the padding are the least number that leaves the message 8 bytes short of whole blocks |
| MerkleDamgard.AbsorbAppend | engine/src/libBaseCommon/sha1.cpp:54-88 | folding over a message in two whole-block parts is folding over the whole |
| MerkleDamgard.Flush | engine/src/libBaseCommon/sha1.cpp:81-84 | compressing a buffer that has just filled keeps the state the fold of what was written |
| MerkleDamgard.FinishOne | engine/src/libBaseCommon/sha1.cpp:198-221 | one padded block gives the hash of the whole message when its tail is at most 55 bytes |
| MerkleDamgard.FinishTwo | engine/src/libBaseCommon/sha1.cpp:183-221 | two padded blocks give it when the tail is longer |
| Sha1.CSHA1.Write | engine/src/libBaseCommon/sha1.cpp:54-88 | a write is appended to the message; it corrupts the object exactly when it is not empty and the digest was already computed, the object corrupted, or 2^64 bits reached |
| Sha1.CSHA1.Result | engine/src/libBaseCommon/sha1.cpp:32-52 | the FIPS 180-4 digest of everything written since the reset, the same when asked again; refused once corrupted |
| Sha1.CSHA1.PadMessage | engine/src/libBaseCommon/sha1.cpp:176-221 | both paddings, the two-block one above index 55 and the one-block one, end in the digest |
| Sha1.CSHA1.ProcessMessageBlock | engine/src/libBaseCommon/sha1.cpp:90-174 | the four loops over 80 rounds are the compression function of section 6.1.2 of FIPS 180-4 |
| Sha1.CSHA1.WordSequence | engine/src/libBaseCommon/sha1.cpp:103-114 | the word sequence is the message schedule |
| Sha1.CSHA1.CountByte | engine/src/libBaseCommon/sha1.cpp:69-79 | the two length words together are 8 times the bytes written, until 2^64 bits |
| Sha1.CSHA1.Reset | engine/src/libBaseCommon/sha1.cpp:16-30 | from any state, an object with nothing written |
| Sha1.LengthBytes | engine/src/libBaseCommon/sha1.cpp:211-218 | the eight bytes stored from the two words are the 64-bit big-endian length |
| Sha1.DigestInChunks | engine/src/libBaseCommon/sha1.cpp:32-88 | however a message under 2^64 bits is cut into writes, the digest is that of the whole, twice; after a later non-empty write there is none |
| MerkleDamgard.RotlBits | engine/src/libBaseCommon/sha1.cpp:223-226 | for every amount n up to 32, bit k of a word is bit (k + n) mod 32 of the rotated word |
| Sha1Answers.ScheduleBits | engine/src/libBaseCommon/sha1.cpp:103-114 | for 16 <= t < 80, bit (k + 1) mod 32 of word t is the exclusive or of bit k of the words t-3, t-8, t-14 and t-16 |
| Sha1Answers.WordBytesOf | engine/src/libBaseCommon/sha1.cpp:103-109 | the four bytes of a word read from the block are, most significant first, the block's |
| Sha1Answers.FunctionBits | engine/src/libBaseCommon/sha1.cpp:120-165 | the round functions bit by bit: choose for t < 20, majority for 40 <= t < 60, parity otherwise |
| Sha1Answers.AbcDigest | engine/src/libBaseCommon/sha1.cpp:16-221 | the digest of "abc" is a9993e36 4706816a ba3e2571 7850c26c 9cd0d89d, as in the published examples of FIPS 180-4 |
| Md5.PassOperates | engine/src/libBaseCommon/md5.cpp:153-170 | rotating the four variables after every operation is assigning the registers in the order [ABCD], [DABC], [CDAB], [BCDA] of RFC 1321 |
| Md5.FirstRound | engine/src/libBaseCommon/md5.cpp:155-155 | the code's form of the first auxiliary function is the RFC's |
| Md5.SecondRound | engine/src/libBaseCommon/md5.cpp:156-156 | the code's form of the second auxiliary function is the RFC's |
| Md5.FourthTables | engine/src/libBaseCommon/md5.cpp:173-185 | the fourth rows of the order tables are the word indices and shifts of the RFC |
| Md5.SecondTables | engine/src/libBaseCommon/md5.cpp:173-185 | the second rows of the order tables are the word indices and shifts of the RFC |
| Md5.HashState.Md5Compress | engine/src/libBaseCommon/md5.cpp:200-242 | the four loops are section 3.4 of RFC 1321 on one block |
| Md5.HashState.Process | engine/src/libBaseCommon/md5.cpp:68-100 | whole blocks straight from the input and bytes through the buffer, in any mix, append to the message |
| Md5.HashState.ProcessDirect | engine/src/libBaseCommon/md5.cpp:77-84 | a block compressed from the input counts as written |
| Md5.HashState.ProcessBuffered | engine/src/libBaseCommon/md5.cpp:85-97 | bytes through the buffer count as written, whether they fill it or not |
| Md5.HashState.Init | engine/src/libBaseCommon/md5.cpp:249-260 | from any state, nothing written |
| Md5.HashState.Done | engine/src/libBaseCommon/md5.cpp:276-321 | the RFC 1321 digest of everything written |
| Md5.LengthWraps | engine/src/libBaseCommon/md5.cpp:288-312 | a bit count kept modulo 2^64 stores the low-order 64 bits of the length, as the RFC asks for messages of any length |
| Md5.DigestInPieces | engine/src/libBaseCommon/md5.cpp:68-321 | however a message is cut into pieces, the digest is that of the whole |
| Md5Answers.FunctionBits | engine/src/libBaseCommon/md5.cpp:155-158 | the four auxiliary functions bit by bit, as section 3.4 of RFC 1321 words them |
| Md5Answers.AbcDigest | engine/src/libBaseCommon/md5.cpp:68-321 | the digest of "abc" is the one in the test suite of appendix A.5 of RFC 1321, 900150983cd24fb0d6963f7d28e17f72 |
| Base64.DecodeUndoesEncode | engine/src/libBaseCommon/base64.cpp:23-147 | decoding the encoding of any message gives the message |
| Base64.EncodeUndoesDecode | engine/src/libBaseCommon/base64.cpp:23-147 | encoding the decoding of a text gives the text if and only if it is canonical in the sense of section 3.5 of RFC 4648 |
| Base64.CodeSextets | engine/src/libBaseCommon/base64.cpp:39-42 | the code's masks and shifts cut the 24-bit group of the RFC into its four sextets |
| Base64.CodeOctets | engine/src/libBaseCommon/base64.cpp:106-108 | the code's masks and shifts join four sextets into the three octets, a missing sextet influencing no octet before it |
| Base64.JoinedPartial | engine/src/libBaseCommon/base64.cpp:119-139 | what the decoder puts in place of missing letters never reaches its output |
| Base64.Encode | engine/src/libBaseCommon/base64.cpp:23-81 | the section 4 encoding, 4 bytes for every 3 begun, at the start of the buffer and nothing else touched; -1 for a null argument, nothing to encode or too small a buffer |
| Base64.Decode | engine/src/libBaseCommon/base64.cpp:83-147 | the decoding of the longest prefix of letters, with the same failures |
| Base64.EncodeThenDecode | engine/src/libBaseCommon/base64.cpp:23-147 | through both calls with buffers just large enough, a non-empty message comes back |
| Base64.LettersOfTable | engine/src/libBaseCommon/base64.cpp:8-11 | the letter of each of the 64 values is the one in Table 1 of RFC 4648 |
| BufFile.ReadAllWritten | engine/src/libBaseCommon/buf_file.cpp:80-207 | reading the same kinds in the same order recovers any sequence of values that fit, and ends where they end |
| BufFile.ChangedMeansRead | engine/src/libBaseCommon/buf_file.cpp:80-106 | values read over different ones were all there, so the cursor has moved over all their bytes |
| BufFile.CWriteBuf.Resize | engine/src/libBaseCommon/buf_file.cpp:166-177 | a larger buffer keeps the bytes of the old one; a size that is not larger is refused |
| BufFile.CWriteBuf.WriteUint | engine/src/libBaseCommon/buf_file.cpp:179-190 | the bytes of the value are appended, the buffer growing if needed |
| BufFile.CWriteBuf.WriteBytes | engine/src/libBaseCommon/buf_file.cpp:179-190 | the bytes are appended |
| BufFile.CWriteBuf.WriteString | engine/src/libBaseCommon/buf_file.cpp:192-207 | length and bytes are appended, but a string of 65535 bytes or more is skipped |
| BufFile.CReadBuf.ReadUint | engine/src/libBaseCommon/buf_file.cpp:80-91 | succeeds exactly when enough bytes are left; a failed read moves and changes nothing |
| BufFile.CReadBuf.ReadString | engine/src/libBaseCommon/buf_file.cpp:93-106 | succeeds when the length and that many bytes are left; a failed read moves and changes nothing |
| BufFile.WriteThenRead | engine/src/libBaseCommon/buf_file.cpp:80-207 | through a buffer of any initial size, all values come back and nothing is left |
| NativeMessage.RoundTrip | engine/inc/libCoreCommon/db_native_message.h:12-45 | unpacking the packed bytes of a message with a list, under their 16-bit size, gives it back in every object of its class, whatever that held, if and only if the message needs at most 65535 bytes |
| NativeMessage.FieldsRoundTrip | engine/inc/libCoreCommon/db_native_message.h:49-147 | the same for the messages without a list |
| NativeMessage.QueryCommand.Pack | engine/inc/libCoreCommon/db_native_message.h:157-172 | the buffer holds exactly the packed query, whatever it held before |
| NativeMessage.QueryCommand.Unpack | engine/inc/libCoreCommon/db_native_message.h:174-192 | reports success always; fields whose read fails keep what they held |
| NativeMessage.CallCommand.Pack | engine/inc/libCoreCommon/db_native_message.h:12-26 | the buffer holds exactly the packed call, whatever it held before |
| NativeMessage.CallCommand.Unpack | engine/inc/libCoreCommon/db_native_message.h:28-45 | reports success always; fields whose read fails keep what they held |
| NativeMessage.SendQuery | engine/inc/libCoreCommon/db_native_message.h:157-192 | a query that fits is recovered in any other object through both calls |
| NativeWire.QueryBytes | engine/inc/libCoreCommon/db_native_message.h:157-172 | the bytes of a packed query one by one: the channel in four bytes, table and where clause behind two-byte lengths, the number of arguments in two bytes and the arguments behind theirs, all little-endian |
| FreshMessage.FreshRoundTrip | engine/inc/libCoreCommon/db_native_message.h:28-45 | in a fresh object a message comes back if and only if it needs at most 65535 bytes, or the bytes that its 16-bit size drops are exactly those of 32768 empty strings at the end of its list |
| FreshMessage.FreshFieldsRoundTrip | engine/inc/libCoreCommon/db_native_message.h:49-147 | for the messages without a list a fresh object makes no difference |
| FreshMessage.BlankListRead | engine/src/libBaseCommon/buf_file.cpp:93-106 | strings that came back over empty ones are those whose bytes are all there, and behind them empty ones, with less than a length left |
| Utf8.SlicesJoin | engine/src/libBaseCommon/utf8.cpp:141-175 | cutting a text at any unit and joining the parts gives the text, with a last unit cut short included |
| Utf8.EndsGiveSlice | engine/src/libBaseCommon/utf8.cpp:141-175 | the two positions of the scan give the units from pos on, at most count of them, even where pos + count wraps around |
| Utf8.UnitsAreUnits | engine/src/libBaseCommon/utf8.cpp:14-29 | the units start with their lead byte and have the width it says, unless the last is cut short |
| Utf8.UnitsAreCodePoints | engine/src/libBaseCommon/utf8.cpp:14-29 | a text that encodes code points as in section 2 of RFC 2279 is accepted, and its units are their encodings, one for one |
| Utf8.SlicesAreCodePoints | engine/src/libBaseCommon/utf8.cpp:141-175 | cutting it from pos on, at most count units, gives the encoding of the code points from pos on, at most count of them |
| Utf8.MasksAreRanges | engine/src/libBaseCommon/utf8.cpp:19-25 | the masks of the code put each byte into the range of its width |
| Utf8.CheckUtf8 | engine/src/libBaseCommon/utf8.cpp:14-29 | true exactly for texts that lead bytes divide into units |
| Utf8.CUTF8.Init | engine/src/libBaseCommon/utf8.cpp:70-78 | text that is not accepted leaves the old text |
| Utf8.CUTF8.Length | engine/src/libBaseCommon/utf8.cpp:122-139 | the number of units |
| Utf8.CUTF8.Substr | engine/src/libBaseCommon/utf8.cpp:141-175 | exactly the units from pos on, at most count of them, for all 64-bit arguments |
| Utf8.CUTF8.At | engine/src/libBaseCommon/utf8.cpp:177-180 | the unit at the position, or nothing past the end |
| Utf8.CUTF8.CutInTwo | engine/src/libBaseCommon/utf8.cpp:122-175 | substr(0, k) followed by substr(k, length - k) is the whole text |
| Encryptor.ChunkingDoesNotMatter | engine/src/libBaseCommon/encryptor.cpp:43-69 | two sides with one key, each cutting the stream as it likes: what is received joined is what was sent joined |
| Encryptor.StreamUndoes | engine/src/libBaseCommon/encryptor.cpp:63-69 | the same stretch of the stream applied twice is nothing |
| Encryptor.StreamBits | engine/src/libBaseCommon/encryptor.cpp:43-61 | a bit of the stream is flipped exactly where the first wheel at n mod 256 and the second at (n / 256) mod 256 differ in it |
| Encryptor.WheelsTurn | engine/src/libBaseCommon/encryptor.cpp:21-41 | each wheel starts at the key's x and each next byte is a*x*x + b*x + c modulo 256 of the one before |
| Encryptor.CEncryptor.InitWithKey | engine/src/libBaseCommon/encryptor.cpp:21-41 | both wheels filled from the key and the stream at its start |
| Encryptor.CEncryptor.Encrypt | engine/src/libBaseCommon/encryptor.cpp:43-61 | byte n of the stream is xored with the wheels at n mod 256 and (n / 256) mod 256, in place; before a key nothing happens |
| Encryptor.CEncryptor.Decrypt | engine/src/libBaseCommon/encryptor.cpp:63-69 | the same stream |
| Encryptor.Through | engine/src/libBaseCommon/encryptor.cpp:21-61 | the object carries the stream from chunk to chunk |
| Placeholder.PiecesGlue | engine/src/libBaseDatabase/db_command_query_handler.cpp:13-16 | a template is its pieces, free of placeholders, with placeholders between them |
| Placeholder.PiecesUnique | engine/src/libBaseDatabase/db_command_query_handler.cpp:13-16 | and no other pieces are |
| Placeholder.FillsOne | engine/src/libBaseDatabase/db_command_query_handler.cpp:37-50 | between any texts free of placeholders one placeholder becomes the escaped argument between single quotes, and the texts stay |
| Placeholder.Substitute | engine/src/libBaseDatabase/db_command_query_handler.cpp:37-50 | the k-th placeholder of the original template is replaced by the k-th argument, escaped and quoted, as long as there are both; inserted text is never scanned, and the loop ends |
| Placeholder.QueryText | engine/src/libBaseDatabase/db_command_query_handler.cpp:52-58 | the statement has a where clause exactly when the template is not empty |
| FixMemoryPool.RunKeepsInv | engine/src/libCoreCommon/fix_memory_pool.cpp:24-50 | after every run of allocations and frees of live blocks, live and free blocks are disjoint and together all blocks of all batches, each once, and the counter is the number of live blocks |
| FixMemoryPool.BatchesMeetPeak | engine/src/libCoreCommon/fix_memory_pool.cpp:24-50 | after every run the pool owns exactly as many batches as the most blocks ever live at once needed: enough for them, and one less would not do |
| FixMemoryPool.TakenInv | engine/src/libCoreCommon/fix_memory_pool.cpp:24-44 | a block handed out was not live and is a block of some batch |
| FixMemoryPool.GivenInv | engine/src/libCoreCommon/fix_memory_pool.cpp:46-50 | giving back a live block frees just that block, whatever leftovers the vector holds |
| FixMemoryPool.LiveBlocksApart | engine/src/libCoreCommon/fix_memory_pool.cpp:36-40 | live blocks of a batch do not overlap and lie inside it |
| FixMemoryPool.SlicesFitIff | engine/src/libCoreCommon/fix_memory_pool.cpp:28-40 | the blocks lie inside the batch if and only if the 32-bit product of unit size and count does not wrap |
| FixMemoryPool.CFixMemoryPool.Allocate | engine/src/libCoreCommon/fix_memory_pool.cpp:24-44 | the pool hands out a block that was not live, growing by a batch when none is free |
| FixMemoryPool.CFixMemoryPool.Deallocate | engine/src/libCoreCommon/fix_memory_pool.cpp:46-50 | a live block is free again; null is ignored |
| RoundRobin.AlwaysBalancedIff | engine/src/libCoreCommon/round_robin_service_selector.cpp:27-31 | from every start and for every number of turns each index comes up floor or ceil of the average, if and only if the number of services divides 2^32 |
| RoundRobin.BalancedWithoutWrap | engine/src/libCoreCommon/round_robin_service_selector.cpp:27-31 | and always as long as the counter does not wrap |
| RoundRobin.FairTurns | engine/src/libCoreCommon/round_robin_service_selector.cpp:21-38 | so every service of a fixed list is chosen floor(m/n) or ceil(m/n) times in m turns |
| RoundRobin.NeverFailsIff | engine/src/libCoreCommon/round_robin_service_selector.cpp:27-39 | with some service surely healthy, whatever the others' health and the draws, the selection never fails, if and only if its ten probes reach every service |
| RoundRobin.NeverFailsExactly | engine/src/libCoreCommon/round_robin_service_selector.cpp:27-39 | for distinct services the same in numbers: exactly when there are at most ten and the counter does not wrap among the first n probes, wraps so soon that n follow, goes on around the wrap as if there were none, or the probes before and after it together cover all |
| RoundRobin.ProbesAllIff | engine/src/libCoreCommon/round_robin_service_selector.cpp:27-31 | the ten probes reach every one of distinct services exactly then |
| RoundRobin.ReachesByNumber | engine/src/libCoreCommon/round_robin_service_selector.cpp:27-39 | up to 6 services and 8 are reached from every counter, more than 10 from none, and 7, 9 and 10 unless the counter is about to wrap |
| RoundRobin.TenAreProbed | engine/src/libCoreCommon/round_robin_service_selector.cpp:27-39 | up to ten services are all reached unless the counter wraps on the way and their number does not divide 2^32 |
| RoundRobin.WrapMissesOne | engine/src/libCoreCommon/round_robin_service_selector.cpp:27-39 | ten services, five turns before the wrap: one is passed over |
| RoundRobin.SureForTenTimeouts | engine/src/libCoreCommon/core_service.cpp:284-322 | a service never heard of stays surely healthy for exactly ten timeouts in a row |
| RoundRobin.SureAgain | engine/src/libCoreCommon/core_service.cpp:284-322 | after t timeouts in a row a service is surely healthy again exactly from the (2t - 20)-th answer on, or the 80th if that is fewer |
| RoundRobin.HealthyDraws | engine/src/libCoreCommon/core_service.cpp:284-298 | of the hundred numbers that may be drawn, a mark below 80 passes mark + 1, and a mark from 80 on passes all |
| RoundRobin.CRoundRobinServiceSelector.Select | engine/src/libCoreCommon/round_robin_service_selector.cpp:21-40 | the first healthy of at most ten probes, or 0; the counter has moved by the probes made |
| RoundRobin.CRoundRobinServiceSelector.SelectMany | engine/src/libCoreCommon/round_robin_service_selector.cpp:21-40 | with all services surely healthy, a run of selections is the turns of the counter |
| RoundRobin.ServiceHealth.UpdateServiceHealth | engine/src/libCoreCommon/core_service.cpp:300-322 | a mark falls by two for a timeout and rises by one for an answer, and stays from 0 to 100 |
| UserCenter.Sticky | service/usercenter_service/uc_service_message_handler.cpp:24-55 | if two logins of a player are answered with different servers, in between the player left, timed out, or another server than the first sent a heartbeat for it |
| UserCenter.NextAnswer | service/usercenter_service/uc_service_message_handler.cpp:24-101 | the answer to the next login, exactly: the server it asks for if the player was released since, or else the server that answered before |
| UserCenter.KickIff | service/usercenter_service/uc_service_message_handler.cpp:57-88 | a heartbeat kicks its sender exactly when the record is absent or owned by another, and the player is then unowned |
| UserCenter.TimeoutMeansSilence | service/usercenter_service/user_info.cpp:34-58 | a timeout means that since the login that started the timer the owner of the moment sent no heartbeat |
| UserCenter.TimeoutIff | service/usercenter_service/user_info.cpp:34-58 | in every trace a player can time out if and only if a login that found no owner started the timer and since then the owner of the moment sent no heartbeat and no timeout came |
| UserCenter.HeartbeatDisarms | service/usercenter_service/user_info.cpp:34-42 | after a heartbeat of its owner a record cannot time out until a login starts the timer again |
| UserCenter.CUserInfo.StartTimeout | service/usercenter_service/user_info.cpp:44-52 | the ticker is registered, whether it was before or not |
| UserCenter.CUserInfo.OnHeartbeat | service/usercenter_service/user_info.cpp:34-42 | the ticker is not registered any more |
| UserCenter.CUserInfoMgr.CreateUserInfo | service/usercenter_service/user_info_mgr.cpp:16-26 | a new record for a player that has none; otherwise nothing changes |
| UserCenter.CUserInfoMgr.DestroyUserInfo | service/usercenter_service/user_info_mgr.cpp:42-51 | the record is gone and no other is touched |
| UserCenter.CUserInfoMgr.OnLogin | service/usercenter_service/uc_service_message_handler.cpp:24-55 | the login step of the trace, on objects, with its answer |
| UserCenter.CUserInfoMgr.OnHeartbeat | service/usercenter_service/uc_service_message_handler.cpp:57-88 | the heartbeat step, with its kick |
| UserCenter.CUserInfoMgr.OnLeave | service/usercenter_service/uc_service_message_handler.cpp:90-101 | the leave step |
| UserCenter.CUserInfoMgr.OnTimeout | service/usercenter_service/user_info.cpp:54-58 | the timeout step |

## Left out

- Sockets, epoll, connecting and listening, MySQL, the other database commands' SQL, logging, profiling, coroutines, Lua and the protobuf layer: I/O, platform calls or thin wrappers.
- The worker loop of `thread_base.cpp` is a step machine on values, not an object: every atomic load and store is a step of its own, and methods could not interleave. Several controlling threads and spurious wakeups of the pause are not modelled, and a pause that returns at once because the state is not Normal promises nothing.
- Liveness beyond "some waiter can go on": fairness of the scheduler, and whether the net thread ever handles a given packet, are not stated.
- ConnectionThreads.CBaseConnectionMgrImpl.OnConnect: the maps of callbacks and the second map, by type, of base connections are not part of this model.
- NetRunnable.CNetRunnable.HandlePacket: listen, connect and the socket's own shutdown are seen as packets that leave the index alone.
- RpcSystem.Service.Invoke: how the health check decides (RoundRobin has it), coroutine identities and the time until a ticker fires are not modelled; a ticker may fire at any moment while armed.
- RpcSystem.Service.ConstructHolder: the static holder counter is unbounded and used by one thread; the original increments it from several.
- ConnectionIndex.CoreConnectionMgr.CreateCoreConnection: the connection id is unbounded.
- Sha1.CSHA1.Result: null pointers for data or result, which the original ignores or refuses.
- Md5.HashState.Process: the words of the state are 32 bits; where `unsigned long` has 64, the original keeps higher bits in them that nothing reads. The return values -1 for a buffer already full cannot occur from a valid state.
- Md5.HashState.Done: says nothing about the state left behind, which only Init makes usable again.
- The helpers of `md5.cpp` besides the hash itself, and CRC.
- Base64.Decode: text of more than 2^31-1 bytes, where the original's position counter overflows.
- BufFile.CWriteBuf.WriteString: sizes and cursors of 2^31 and more. Seeking, and the overload for C strings, are left out.
- NativeMessage.QueryCommand.Pack: messages that come near 2^31 bytes.
- NativeMessage.FieldsRoundTrip: the six messages without a list are covered as sequences of fields, not as six more classes.
- NativeMessage.SendQuery: the serializer's lookup of a message by name is left out.
- Utf8.CUTF8.Init: conversion from and to wide strings; copying and moving the object.
- Placeholder.QueryText: running the statement and filling the response.
- FixMemoryPool.CFixMemoryPool.constructor: a pool of no blocks or of empty blocks, and one whose batch size wraps, which SlicesFitIff rules on.
- FixMemoryPool.CFixMemoryPool.Allocate: blocks number less than 2^32, and giving back a block that is not live is the caller's error.
- RoundRobin.CRoundRobinServiceSelector.Select: the list of services is a parameter, as it changes between calls and the counter is shared by all service types; the draw below a health of 80 is any number.
- UserCenter.Sticky: traces in which a login names server 0, the mark of an unowned record.
- UserCenter.CUserInfoMgr.OnTimeout: the 5000 milliseconds are not modelled; a timeout may come at any moment while the ticker is registered.
