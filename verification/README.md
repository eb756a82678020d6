# SPServer in Dafny

SPServer is a C++ event-driven server framework. One event-loop thread and a pool of worker threads
pass sessions, responses and messages through queues; the loop never blocks and the handlers never
touch a socket. This project models the parts of it whose correctness depends on state kept over a
whole run, and proves what they promise for every input and every interleaving.

The project has three groups of modules.

**The session protocol (the libevent side).**
`SessionProtocol` is a labelled transition system: each event-loop callback is one atomic step, each
worker task is split wherever another thread can see it half done. `SessionControl`, `SessionRuns` and
`MessageAccounting` carry its invariants over every run, `ProtocolTheorems` states the results in the
protocol's own words, and `ProtocolEnds` shows that every session can still be brought to its end.
`Delivery` says what one response comes to for all sessions and messages at once, `Receipts` what is
entered under success and failure of a message over a run, and `Causes` which events lead to which
handler calls and which calls to which responses. `EventLoop` is the callbacks as methods with the loops
of the source, each proved equal to its step, and `Transmit` ties the bytes of the scatter-gather writer to
the messages the protocol retires. `ThreadPool` and `MessageQueue` are transition systems of their own with
every lock operation a separate step; `ThreadPoolCalls` says what becomes of each call of dispatch.
`SessionManager` is the generation-counted slab of session slots.

**Data structures that must agree with a simple thing.**
`HeapOrder` and `EventHeap` (the indexed timer heap) with `Timeouts` (what the loop does when it looks
at the clock), `Bits` and `RingBuffers` (the masked ring and the ring reduced by remainder), and
`ByteBuffer` (the misaligned byte buffer).

**Incremental decoders.**
`Incremental` is the general theory: a parser that takes bites from the front of a buffer, and when
cutting the input makes no difference. `HttpText`, `Numerals`, `HttpParsing`, `HttpFragments`,
`HttpHeaders`, `HttpChunks`, `HttpRoundTrip` and `HttpMsgParser` are the HTTP message parser with the chunked
coding of section 7.1 of RFC 9112. `DotText`, `DotDecoders`, `DotRefinement` and `DotLineFeeds` are the two
decoders of dot-terminated text (section 4.5.2 of RFC 5321). `Smtp`, `SmtpLines` and `SmtpAdapter` are the SMTP
command machine.

Where the source updates objects in place the model has classes and methods with the same loops;
threads that interleave are modelled as steps on a state, because every interleaving has to be covered.
`Basics` holds what several modules share.

## What turned out not to hold

These are properties one might expect of the code and that it does not have. The code is modelled as it
is; each has a lemma with the input that shows it, or with the exact condition.

- A request to leave is not final: a close request that arrives while a session's start task runs is
  overwritten when start sets the status (`ProtocolTheorems.CloseRequestDuringStartIsLost`), and that step is
  exactly what undoes a request (`ProtocolTheorems.LeavingIsUndoneExactly`,
  `ProtocolTheorems.RequestIsLostExactly`).
- Fragments of HTTP input do not always come to the same as the whole. They do exactly if no cut comes in a
  header line that begins with CR and ends behind the cut (`HttpFragments.CutMattersExactly`,
  `HttpFragments.FragmentationMakesNoDifference`); for a written message that is the cut between CR and LF of
  the blank line (`HttpRoundTrip.MessageInFragments`).
- A header with no value at all is not survived; one blank is enough (`HttpParsing.EmptyValue`, and for any line
  `HttpParsing.BadLineExactly`).
- The loop that takes the extra dots out of a mail text does not always end inside its buffer. For a text without
  NUL it does exactly if the text is not empty and does not end with LF and a dot
  (`DotDecoders.StaysInIfRemovable`, for any text `DotDecoders.StaysExactly`); an input is in
  `DotDecoders.DotOnTheLastLine`, and the empty mail text is another (`DotRefinement.DecodesWhatWasSent`).
- A dot that begins the first line of a mail text is doubled by a sender that follows the standard and is
  not taken out again: the round trip holds exactly for texts that do not begin with a dot
  (`DotText.UnstuffKeepsTheFirstDot`).
- The two decoders of mail text do not always agree when more follows the terminator: they do exactly if what has
  been moved aside does not end inside the terminator or no later terminator has arrived
  (`DotRefinement.DecodersAgree`); otherwise the next text is swallowed (`DotRefinement.NextTextIsSwallowed`).
- A mail text that ends with LF, dot, LF is not always given back: it is exactly if no CRLF, dot, CRLF has arrived
  behind it, which both decoders look for first (`DotLineFeeds.DecodesWhatWasSentWithLf`,
  `DotLineFeeds.ChunkDecodesLf`).
- A stale session handle means a session again when the 16-bit sequence number of its slot has gone all
  the way round, and exactly then (`SessionManager.StaleHandle`).
- The asserts of the session manager do not protect it: putting a session under a key that was not handed out, or
  taking such a key back, passes them and breaks it, and nothing else does (`SessionManager.PutKeepsExactly`,
  `SessionManager.RemoveKeepsExactly`).
- The session count is right exactly as long as no key is removed without a session having been put there
  (`SessionManager.CountFallsBehind`).
- `nextpow2` has an answer exactly up to 2^31 (`RingBuffers.ArraySize`).
- A second mail text can be sent after the first without a new MAIL command, exactly as long as there is no reset
  (`Smtp.SecondTextNeedsNoSender`); the standard would begin a new transaction.

Where documentation and code differ the code is followed: `spmsgdecoder.hpp` says that the decoder waits for
CRLF.CRLF, but both decoders also accept LF.LF with a dot between.

## Model

| member | source | states |
|---|---|---|
| `ProtocolTheorems.PointersAreAlive` | spserver/speventcb.cpp:163-290 | in every run, a session pointer that a callback or a task follows leads to a session not yet deleted |
| `ProtocolTheorems.OneTaskAtATime` | spserver/speventcb.cpp:413-613 | in every run a session has at most one start, worker or terminal task that may still touch it |
| `ProtocolTheorems.RetirementIsFinal` | spserver/speventcb.cpp:446-561 | once a session has left the manager it never returns, only its own tasks change it and no further task is queued for it |
| `ProtocolTheorems.RetiredForEver` | spserver/speventcb.cpp:446-561 | the same over any number of steps |
| `ProtocolTheorems.PhaseDecidesLegality` | spserver/speventcb.cpp:430-613 | the phase the invariant tracks is bad exactly when the handler's calls leave the shape start? handle* (error or timeout)? close |
| `ProtocolTheorems.HandlerCallsAreLegal` | spserver/speventcb.cpp:430-613 | in every run a handler's calls have that shape, with no handle after a start or handle that returned non-zero |
| `ProtocolTheorems.NoSessionIsOrphaned` | spserver/speventcb.cpp:163-403 | in every run, for every live session a step that serves it is possible: its read or write event, a response of its in the queue, or one of its tasks |
| `ProtocolTheorems.NothingIsStuck` | spserver/speventcb.cpp:301-403 | a managed session with output queued or input undecoded has its write event registered or is owed a response |
| `ProtocolTheorems.RecipientsAreConserved` | spserver/speventcb.cpp:322-356 | at every moment the addressed recipients of a message are those listed, served and failed; it is queued at a session as often as the session is listed; it is completed once when the list is empty and not before |
| `ProtocolTheorems.RefusalIsSettledOnce` | spserver/speventcb.cpp:140-152 | the message that refuses a connection, which has no addressee, is settled and completed exactly once |
| `ProtocolTheorems.AllCompletedInTheEnd` | spserver/speventcb.cpp:446-472 | when no session is left every message has been completed exactly once |
| `ProtocolTheorems.LeavingIsFinal` | spserver/speventcb.cpp:358-367 | a session that is to leave never becomes normal again unless its start task is still under way |
| `ProtocolTheorems.LeavingIsUndoneExactly` | spserver/speventcb.cpp:587-613 | one step makes a session that is to leave normal again exactly if it is the step with which its start task writes a normal status |
| `ProtocolTheorems.RequestIsLostExactly` | spserver/speventcb.cpp:587-613 | in every run a session that is to leave at one moment stays so up to a later one exactly if no such step comes in between |
| `ProtocolTheorems.CloseRequestDuringStartIsLost` | spserver/speventcb.cpp:587-613 | a run of five steps in which a close request made during start is overwritten |
| `ProtocolEnds.EverySessionCanEnd` | spserver/speventcb.cpp:430-585 | every run can go on until a session that is still there has had its close call and is deleted, without another session coming back |
| `ProtocolEnds.EverythingCanEnd` | spserver/speventcb.cpp:430-585 | every run can go on until no session is left and every message has been completed exactly once |
| `ProtocolEnds.QuietWaits` | spserver/speventcb.cpp:301-403 | a session that nothing is under way for is in the manager, not running, and waits for one of its events |
| `SessionRuns.StepKeeps` | spserver/speventcb.cpp:95-613 | every step of the system keeps the single-session invariant for all sessions |
| `SessionRuns.RunControlled` | spserver/speventcb.cpp:95-613 | that invariant holds in every reachable state |
| `SessionControl.ReadOk` | spserver/speventcb.cpp:163-214 | onRead keeps the session invariant on every branch: data, nothing, timeout, error |
| `SessionControl.WriteOk` | spserver/speventcb.cpp:216-290 | onWrite keeps it on every branch, for sessions that go on and sessions that leave |
| `SessionControl.AnsweredOk` | spserver/speventcb.cpp:301-320 | taking a session's own response keeps it, although the read event is deleted without clearing the reading flag |
| `SessionControl.TaskOk` | spserver/speventcb.cpp:430-613 | every step of every task keeps it |
| `MessageAccounting.StepAccounted` | spserver/speventcb.cpp:95-370 | every step keeps the accounts of every message |
| `MessageAccounting.RunAccounted` | spserver/speventcb.cpp:95-370 | the accounts balance in every reachable state |
| `MessageAccounting.TransmitAccounted` | spserver/spiochannel.cpp:93-109 | retiring messages that went out keeps the accounts |
| `MessageAccounting.FailAllAccounted` | spserver/speventcb.cpp:455-467 | failing everything a session has queued keeps the accounts |
| `Delivery.ResponseIsDelivered` | spserver/speventcb.cpp:292-370 | one response as a whole: every session there that is the sender or is not to leave has each message queued behind its old output, everybody else and all recipients of an empty message are under failure, last one first; what else becomes of the sender, of the sessions to be closed and of all others, field by field |
| `Delivery.ArrivalsCount` | spserver/speventcb.cpp:322-341 | a message is queued at a session as often as the session is among its recipients |
| `Delivery.ArrivalsInOrder` | spserver/speventcb.cpp:322-341 | messages are queued in the order of the response |
| `Delivery.AmongCount` | spserver/speventcb.cpp:327-346 | those listed and those failed make up the recipients, none lost and none twice |
| `Delivery.UnwantedCount` | spserver/speventcb.cpp:353-355 | a message is completed at once exactly if nobody is left to be served, once, |
| `Delivery.DealtToNobody` | spserver/speventcb.cpp:325-352 | and that is so exactly if it is empty or none of its recipients can get it |
| `Receipts.TransmitSucceeds` | spserver/spiochannel.cpp:93-109 | the session is entered under success of a message once for each copy that went out, and under failure not at all |
| `Receipts.FailAllFails` | spserver/speventcb.cpp:455-467 | at an error or a timeout it is entered under failure once for each copy that was queued, and under success not at all |
| `Receipts.StepEnters` | spserver/speventcb.cpp:163-370 | one step: what goes out is entered under success, what is lost or cannot be given under failure, and nothing else is entered |
| `Receipts.EntriesAreTrue` | spserver/speventcb.cpp:163-370 | over every run a session stands under success of a message exactly as often as a copy went out to it, and under failure exactly as often as one was lost there or could not be given to it |
| `Causes.ReadDoes` | spserver/speventcb.cpp:163-214 | what onRead does to a session, field by field: a worker exactly for a whole request at an idle normal session, an error or a timeout exactly if it is idle, the event registered again unless reading failed |
| `Causes.WriteDoes` | spserver/speventcb.cpp:216-290 | the same for onWrite: close exactly if an idle session is to leave and nothing is left to send, a worker exactly for a whole request otherwise |
| `Causes.AcceptDoes` | spserver/speventcb.cpp:95-161 | what a new session starts with, refused or not |
| `Causes.TaskDoes` | spserver/speventcb.cpp:430-613 | what each step of each task calls, writes, leaves to be done and pushes |
| `Causes.StepCalls` | spserver/speventcb.cpp:163-290 | one step makes a handler call due exactly if it is a cause for that kind of call, and then one |
| `Causes.CallsHaveCauses` | spserver/speventcb.cpp:95-613 | over every run the start, handle, error, timeout and close calls made and due are as many as their causes: so every whole request at an idle normal session leads to one handle, and every failure of an idle one to one error or timeout and one close |
| `Causes.StepReplies` | spserver/speventcb.cpp:430-613 | one step: replies come from handler calls and leave when they are answered |
| `Causes.RepliesAreAnswered` | spserver/speventcb.cpp:430-613 | over every run each reply given by a session's calls, with an empty one for a start whose init failed, has been answered, waits in the response queue or is still to be pushed, as often as it was given |
| `EventLoop.Find` | spserver/spresponse.cpp:70-79 | the first index of a session in a recipient list, or -1 exactly if it is not listed |
| `EventLoop.Loop.OnAccept` | spserver/speventcb.cpp:95-161 | the callback does what the protocol step says, refusing or starting the session |
| `EventLoop.Loop.OnRead` | spserver/speventcb.cpp:163-214 | the callback with its error and timeout branches does what the protocol step says |
| `EventLoop.Loop.OnWrite` | spserver/speventcb.cpp:216-290 | the same for the write callback |
| `EventLoop.Loop.OnResponse` | spserver/speventcb.cpp:292-370 | the loops over messages, recipients and close requests do what the protocol step says |
| `EventLoop.Loop.OfferToAll` | spserver/speventcb.cpp:327-346 | the recipients are served last one first; those that cannot be served are moved to the failure list |
| `EventLoop.Loop.AddEvents` | spserver/speventcb.cpp:372-403 | an event is registered if asked for and not registered already |
| `EventLoop.Loop.Fail` | spserver/speventcb.cpp:446-472 | the loop that empties the output list does what the protocol's failure step says, completing messages nobody is left for |
| `EventLoop.Loop.SettleCopy` | spserver/spiochannel.cpp:96-105 | one copy of a message is settled: the session leaves the recipient list, joins success or failure, and an empty list completes it |
| `Transmit.Gather` | spserver/spiochannel.cpp:55-86 | the vector offered is a prefix of the pending bytes behind the offset, all of them unless it is full, with no empty buffer |
| `Transmit.Channel.RetireCovered` | spserver/spiochannel.cpp:90-112 | of the bytes covered whole messages are retired, and the offset then lies strictly inside the head message, or the list is empty and it is 0 |
| `Transmit.Channel.SendOnce` | spserver/spiochannel.cpp:39-112 | bytes pending before are the bytes that went out followed by the bytes pending after |
| `Transmit.Channel.Transmit` | spserver/spiochannel.cpp:39-120 | the same over all the calls of itself, which end because something went out each time |
| `Transmit.ProgressChain` | spserver/spiochannel.cpp:114-117 | two transmissions one after the other come to one of the bytes and messages of both |
| `Transmit.RetiredIsTransmit` | spserver/spiochannel.cpp:93-109 | retiring k messages one after another is what the protocol step for k sent messages does |
| `Transmit.TransmitTwice` | spserver/spiochannel.cpp:93-109 | retiring j messages and then k is retiring j + k |
| `ThreadPool.StepKeeps` | spserver/spthreadpool.cpp:98-210 | every lock operation, signal and list operation keeps the pool's invariant |
| `ThreadPool.RunKeeps` | spserver/spthreadpool.cpp:98-210 | that invariant holds in every reachable state |
| `ThreadPool.SaveHasRoom` | spserver/spthreadpool.cpp:189-210 | saveThread always finds room in the list |
| `ThreadPool.PoolIsSound` | spserver/spthreadpool.cpp:98-210 | the failure branch of saveThread is unreachable, a thread is signalled only while it sleeps, and there are never more threads than the pool allows |
| `ThreadPool.EveryJobRunsOnce` | spserver/spthreadpool.cpp:98-187 | an accepted job is called at most once and is held by exactly one thread until it is |
| `ThreadPool.NoDeadlock` | spserver/spthreadpool.cpp:98-210 | although dispatch takes main then thread lock and saveThread thread then main, some step is always possible until the pool is at rest |
| `ThreadPool.RestMeansDone` | spserver/spthreadpool.cpp:98-187 | at rest no caller waits and every accepted job has been called |
| `ThreadPoolCalls.CheckDecides` | spserver/spthreadpool.cpp:107-143 | a call waits exactly if no thread is idle and the pool is full; otherwise its job goes to the thread that became idle last, or to a new one exactly if none is idle, and is refused only if that cannot be created |
| `ThreadPoolCalls.WakesAndReturns` | spserver/spthreadpool.cpp:124-150 | the thread given a job is roused with it, a new one is counted, and the locks are released |
| `ThreadPoolCalls.CallsAndSaves` | spserver/spthreadpool.cpp:152-210 | a thread calls its own job and no other, enters itself at the end of the idle list and wakes one of the calls that wait |
| `ThreadPoolCalls.StepDecides` | spserver/spthreadpool.cpp:98-150 | one step: a call is undecided from when it is made until its one job is accepted or refused |
| `ThreadPoolCalls.EveryCallIsDecidedOnce` | spserver/spthreadpool.cpp:98-150 | over every run the calls made are those still undecided, the jobs accepted and the creations that failed |
| `ThreadPoolCalls.RestMeansAllCalled` | spserver/spthreadpool.cpp:98-187 | at rest as many jobs have been called as there were calls of dispatch, less the creations that failed |
| `MessageQueue.StepKeeps` | spserver/event_msgqueue.c:138-221 | every step of any producer and of the consumer keeps the queue's invariant |
| `MessageQueue.DeliveredInOrder` | spserver/event_msgqueue.c:138-159 | payloads reach the callback once each in push order, although the lock is dropped around callbacks |
| `MessageQueue.NoWakeupIsLost` | spserver/event_msgqueue.c:209-221 | while anything is queued a wake token is there or coming, or the consumer has not made its last test |
| `MessageQueue.QuietMeansDelivered` | spserver/spiocpevent.cpp:145-176 | when only a new push is possible, everything pushed has been delivered |
| `MessageQueue.PushDecides` | spserver/event_msgqueue.c:209-221 | a push is turned away exactly if the queue is full, and its caller is told; a token is sent exactly if the item is the only one queued |
| `MessageQueue.NothingElseIsTurnedAway` | spserver/event_msgqueue.c:209-221 | over every run what has been pushed is what producers came with, in the order in which they took the lock, less what came when the queue was full |
| `SessionManager.IssueKeeps` | spserver/spsession.cpp:85-93 | handing out the head of the free list keeps the slab's invariant, and that key and generation were never handed out before |
| `SessionManager.RemoveKeeps` | spserver/spsession.cpp:141-164 | taking a key back keeps it, puts the key at the head of the free list and takes one from the count |
| `SessionManager.PutKeepsExactly` | spserver/spsession.cpp:108-122 | putting a session in an empty slot with the right sequence number keeps the slab sound exactly if the key has been handed out |
| `SessionManager.RemoveKeepsExactly` | spserver/spsession.cpp:141-164 | taking back a key with the right sequence number keeps it sound exactly if the key has been handed out; a free one would be on the list twice |
| `SessionManager.CarveKeeps` | spserver/spsession.cpp:65-83 | so does threading a new row of 1024 slots onto the empty free list |
| `SessionManager.FullMeansAllOutstanding` | spserver/spsession.cpp:61-96 | all 63 x 1024 keys are outstanding exactly when the free list is empty and no row is left |
| `SessionManager.StaleHandle` | spserver/spsession.cpp:124-139 | a handle whose key has been removed means a session exactly when the key has one and its 16-bit sequence number has come round |
| `SessionManager.FreshHandle` | spserver/spsession.cpp:108-139 | a handle that has not been removed means exactly what was put |
| `SessionManager.SystemHandles` | spserver/spresponse.hpp:18-29 | the handles the framework reserves are never issued and never mean a session |
| `SessionManager.RemovedForGood` | spserver/spsession.cpp:61-164 | over every run of operations, a handle removed at one step means nothing at any later one until its sequence number has gone round |
| `SessionManager.CountFallsBehind` | spserver/spsession.cpp:141-164 | over every run the session count is right exactly as long as every key removed had a session |
| `SessionManager.SessionManager.AllocKey` | spserver/spsession.cpp:61-96 | returns 0 exactly when every key is outstanding, else a key from 1024 up that is not, with the slot's sequence number |
| `SessionManager.SessionManager.Put` | spserver/spsession.cpp:108-122 | under what the source asserts, puts the session in that slot and nowhere else; the manager is sound afterwards exactly if the key was outstanding |
| `SessionManager.SessionManager.Get` | spserver/spsession.cpp:124-139 | the slot's session and sequence number, nothing and 0 for a key without a slot |
| `SessionManager.SessionManager.Remove` | spserver/spsession.cpp:141-164 | under what the source asserts, takes the key back with its sequence number advanced, and changes nothing for a key without a slot; the manager is sound afterwards exactly if the key was outstanding |
| `HeapOrder.SwapUp` | spserver/spiocpevent.cpp:95-107 | moving a smaller item above its parent leaves a heap but for that place |
| `HeapOrder.SwapDown` | spserver/spiocpevent.cpp:109-122 | moving an item below its lesser child leaves a heap but for that place |
| `HeapOrder.RootIsLeast` | spserver/spiocpevent.cpp:86-93 | the root of a heap is least by seconds and microseconds |
| `HeapOrder.GreaterIsLater` | spserver/spiocpevent.cpp:86-93 | of two times the greater one is the later, in microseconds |
| `EventHeap.EventHeap.ShiftUp` | spserver/spiocpevent.cpp:95-107 | the item and the entries it passes end in heap order, a permutation, each knowing its index |
| `EventHeap.EventHeap.ShiftDown` | spserver/spiocpevent.cpp:109-122 | the same for an item that may belong below or above the hole |
| `EventHeap.EventHeap.Push` | spserver/spiocpevent.cpp:30-37 | adds exactly the item and keeps the heap valid: in heap order, every member at its own index |
| `EventHeap.EventHeap.OncePerEvent` | spserver/spiocpevent.cpp:30-37 | however the entries are ordered, every member can stand at its own index with an item added only if the item was not a member |
| `EventHeap.EventHeap.Top` | spserver/spiocpevent.cpp:39-42 | an event with the earliest deadline, or null exactly when there is none |
| `EventHeap.EventHeap.RootIsMinimal` | spserver/spiocpevent.cpp:39-55 | no member has an earlier deadline than the first entry |
| `EventHeap.EventHeap.Pop` | spserver/spiocpevent.cpp:44-55 | takes out exactly one event, with the earliest deadline, and sets its index to -1 |
| `EventHeap.EventHeap.Erase` | spserver/spiocpevent.cpp:57-67 | takes out exactly the given event from any place, or nothing if its index is -1 |
| `EventHeap.EventHeap.Reserve` | spserver/spiocpevent.cpp:69-84 | makes room without changing the entries |
| `Timeouts.FireOne` | spserver/spwin32iocp.cpp:472-499 | firing the first event of a timer or a busy session keeps the account of what has fired and what is left |
| `Timeouts.FireSession` | spserver/spwin32iocp.cpp:479-494 | so does firing one whose idle session times out and takes its other event with it |
| `Timeouts.FiredAll` | spserver/spwin32iocp.cpp:462-500 | once nothing expired is left: what has fired, which sessions timed out and what remains, exactly |
| `Timeouts.DoTimeout` | spserver/spwin32iocp.cpp:795-830 | the session is marked running and both its events leave the heap, wherever they stand |
| `Timeouts.OnTimeout` | spserver/spwin32iocp.cpp:462-500 | terminates; fires only expired events, each once, by deadline; leaves no expired event; exactly the idle sessions with an expired event time out |
| `Timeouts.ExpiredExactly` | spserver/spwin32iocp.cpp:475-476 | a deadline has expired exactly if it is not greater than now, that is if it is not later |
| `Timeouts.FiredInTime` | spserver/spwin32iocp.cpp:462-500 | by the clock: what fires is due, earliest first; what is left is not; exactly the idle sessions with an event that is due time out |
| `Bits.NextPow2` | spserver/event_msgqueue.c:45-53 | the least power of two from n up, for 1 to 2^31 |
| `Bits.MaskIsRemainder` | spserver/event_msgqueue.c:116-132 | masking with a power of two less one is the remainder by the power, for all numbers |
| `Bits.Smear` | spserver/event_msgqueue.c:47-51 | one shift-and-or step doubles the run of ones below the top bit |
| `RingBuffers.ArraySize` | spserver/event_msgqueue.c:45-75 | the array holds the bound exactly when that is at most 2^31 |
| `RingBuffers.MaskNext` | spserver/event_msgqueue.c:116-132 | masking and the remainder take the next index round at the end alike |
| `RingBuffers.WindowAppend` | spserver/event_msgqueue.c:111-123 | writing at the tail of a ring that is not full appends, across the wrap too |
| `RingBuffers.WindowRest` | spserver/event_msgqueue.c:125-136 | advancing the head drops the first item, across the wrap too |
| `RingBuffers.WindowChunks` | spserver/event_msgqueue.c:82-109 | the two chunks grow copies are the contents in order |
| `RingBuffers.CircQueue.Grow` | spserver/event_msgqueue.c:82-109 | doubles the array and keeps the contents |
| `RingBuffers.CircQueue.PushTail` | spserver/event_msgqueue.c:111-123 | appends, growing only with head at tail, or refuses exactly when the bound is reached |
| `RingBuffers.CircQueue.PopHead` | spserver/event_msgqueue.c:125-136 | takes the first item, or reports an empty queue |
| `RingBuffers.CircleQueue.Push` | spserver/sputils.cpp:104-133 | appends, across wrap and growth; the copy branch for head before tail is dead |
| `RingBuffers.CircleQueue.Pop` | spserver/sputils.cpp:135-146 | takes the first item, or reports an empty queue |
| `ByteBuffer.PerformAll` | spserver/spwin32buffer.cpp:73-321 | any operations on a new buffer object leave in it what they leave of the bytes given, and hand out what remove takes |
| `ByteBuffer.NothingIsLost` | spserver/spwin32buffer.cpp:73-321 | over every sequence of operations all bytes given have been taken, cut off or are still there |
| `ByteBuffer.PlacesTell` | spserver/spwin32buffer.cpp:73-321 | with truncation too, what has been taken and what is still there are the bytes given at the places that the same operations leave of the numbers |
| `ByteBuffer.OrderIsKept` | spserver/spwin32buffer.cpp:73-321 | those places are strictly increasing, those taken before those still there: nothing is reordered or given out twice |
| `ByteBuffer.NothingIsCut` | spserver/spwin32buffer.cpp:73-321 | without truncation the bytes given are those taken followed by those still there |
| `ByteBuffer.Buffer.Align` | spserver/spwin32buffer.cpp:233-239 | moves the live bytes to the front without changing them, although they overlap |
| `ByteBuffer.Buffer.Expand` | spserver/spwin32buffer.cpp:243-275 | terminates with room for that many more bytes and the contents unchanged |
| `ByteBuffer.Buffer.Add` | spserver/spwin32buffer.cpp:279-297 | appends |
| `ByteBuffer.Buffer.Drain` | spserver/spwin32buffer.cpp:299-321 | takes from the front, at most all |
| `ByteBuffer.Buffer.Remove` | spserver/spwin32buffer.cpp:171-182 | gives the caller what it takes from the front |
| `ByteBuffer.Buffer.AddBuffer` | spserver/spwin32buffer.cpp:73-108 | appends the other buffer's bytes and empties it, also when the two just change places |
| `ByteBuffer.Buffer.Truncate` | spserver/spbuffer.cpp:87-95 | keeps a prefix, -1 exactly if nothing is cut |
| `ByteBuffer.Buffer.GetBuffer` | spserver/spbuffer.cpp:107-116 | puts a NUL behind the contents without changing them |
| `Incremental.CutMakesNoDifference` | spserver/sphttpmsg.cpp:209-250 | for any parser that takes bites: if none of the bites taken from x changes with y behind it, x and then y comes to the same as both at once |
| `HttpParsing.BitesShrink` | spserver/sphttpmsg.cpp:209-250 | every bite takes bytes or brings the parser nearer its end, and takes no more than there are |
| `HttpParsing.Append` | spserver/sphttpmsg.cpp:209-250 | one call never takes more than it is given |
| `HttpParsing.BadLineExactly` | spserver/sphttpmsg.cpp:116-126 | the null pointer is followed exactly for a line with a colon and nothing but line ends behind the first one |
| `HttpParsing.EmptyValue` | spserver/sphttpmsg.cpp:116-126 | so for a header with nothing but blanks for a value exactly if there are no blanks |
| `HttpFragments.NextChunkStands` | spserver/sphttpmsg.cpp:164-185 | a whole chunk or the last line stays the same chunk when more arrives |
| `HttpFragments.CutMakesNoDifference` | spserver/sphttpmsg.cpp:209-250 | for every input, cutting it anywhere but inside a header line that begins with CR gives the same message, status and bytes taken |
| `HttpFragments.CutMattersExactly` | spserver/sphttpmsg.cpp:209-250 | for every input and every cut, the result is another exactly if the cut comes in a header line that begins with CR and the end of that line arrives behind it |
| `HttpFragments.ChunksArePaired` | spserver/sphttpmsg.cpp:153-189 | of the line ends a chunked body has taken, those that are not content are even in number while it goes on and odd once it is complete |
| `HttpFragments.FragmentationMakesNoDifference` | spserver/sphttpmsg.cpp:209-250 | for every list of fragments, appending them one by one comes to the same as all at once exactly if no place between two of them is such a cut; whether it is can be told from the input |
| `HttpFragments.BlankLineMustNotBeCut` | spserver/sphttpmsg.cpp:221-229 | a cut between CR and LF of the blank line gives another result wherever that line stands in the input |
| `HttpChunks.DecodesInAnyFragments` | spserver/sphttpmsg.cpp:153-189 | for every list of non-empty chunks and every fragmentation the content is their concatenation, complete with the zero-size line, and nothing behind that line is taken |
| `HttpChunks.StandingAfterEachFragment` | spserver/sphttpmsg.cpp:153-189 | after every one of the fragments exactly the chunks that have arrived whole have been taken, and the message is complete exactly if the zero-size line has arrived |
| `HttpChunks.DecodesWhatWasEncoded` | spserver/sphttpmsg.cpp:153-189 | the same for all of it in one call |
| `HttpChunks.TakesWholeChunksOnly` | spserver/sphttpmsg.cpp:153-189 | of every incomplete part of an encoding exactly the chunks that have arrived whole are taken, and it is not complete |
| `HttpChunks.PieceIsTaken` | spserver/sphttpmsg.cpp:164-180 | a chunk with its size line and line end is recognised whatever follows |
| `HttpChunks.PieceIsAwaited` | spserver/sphttpmsg.cpp:164-180 | nothing is recognised of a chunk that has not arrived whole |
| `Numerals.ReadBack` | spserver/sphttpmsg.cpp:162-167 | strtol reads back the number whose digits these are, in base 10 and 16 |
| `Numerals.SpellingIsRead` | spserver/sphttpmsg.cpp:162-167 | and it does so whatever blanks, sign and 0x come before them, whatever the case of the digits, and whatever follows |
| `Numerals.ToIntExactly` | spserver/sphttpmsg.cpp:194-197 | a number too great for a long saturates, and of a long the int has the low 32 bits |
| `HttpText.EqualNoCaseExactly` | spserver/sphttpmsg.cpp:410 | two words compare equal without case exactly if one is the other with letters in another case |
| `HttpHeaders.HeaderValueIsFirst` | spserver/sphttpmsg.cpp:449-460 | the value looked up is that of the first header of the name in any case, and none exactly if there is no such header |
| `HttpHeaders.IsChunkedExactly` | spserver/sphttpmsg.cpp:236-239 | the content comes in chunks exactly if the first header named Transfer-Encoding in any case says chunked in any case |
| `HttpHeaders.KindExactly` | spserver/sphttpmsg.cpp:74-94 | a start line that begins with HTTP in any case is a response's, and any other a request's |
| `HttpRoundTrip.SizeLineIsRead` | spserver/sphttpmsg.cpp:133-167 | a hexadecimal size line gives its number, for all sizes below 2^31 |
| `HttpRoundTrip.FieldLineIsRead` | spserver/sphttpmsg.cpp:104-131 | a header line that can be written gives its name and value back |
| `HttpRoundTrip.HeadIsTaken` | spserver/sphttpmsg.cpp:214-230 | the start line, any headers and the blank line are taken and give the headers in order |
| `HttpRoundTrip.PlainMessageIsReadBack` | spserver/sphttpmsg.cpp:191-207 | a message written with its length is read back whole, and nothing behind it is taken |
| `HttpRoundTrip.HeadOnlyIsReadBack` | spserver/sphttpmsg.cpp:191-242 | a response whose content is ignored, and a message whose headers speak neither of chunks nor of a length, is complete with its head |
| `HttpRoundTrip.LengthIsObeyed` | spserver/sphttpmsg.cpp:191-207 | whatever number the length header gives: complete at once if zero, never if negative, and otherwise with that many bytes, all at once |
| `HttpRoundTrip.ChunkedMessageIsReadBack` | spserver/sphttpmsg.cpp:153-189 | the same for a message written in chunks |
| `HttpRoundTrip.NegativeSizeIsStuck` | spserver/sphttpmsg.cpp:153-189 | a chunk whose size line gives a negative number is never taken, and nothing behind it |
| `HttpRoundTrip.StandardPieces` | spserver/sphttpmsg.cpp:153-189 | any data shorter than 2^31 bytes can be written in such chunks, with hexadecimal size lines |
| `HttpRoundTrip.MessageInFragments` | spserver/sphttpmsg.cpp:209-250 | for a written head and whatever follows, fragments come to the same as all at once exactly if the blank line is not cut |
| `HttpRoundTrip.PlainMessageInFragments` | spserver/sphttpmsg.cpp:191-250 | a message with its length is read back from its fragments exactly if the blank line is not cut |
| `HttpRoundTrip.ChunkedMessageInFragments` | spserver/sphttpmsg.cpp:153-250 | and so is a message in chunks |
| `HttpRoundTrip.PlainCompleteWhenWhole` | spserver/sphttpmsg.cpp:191-250 | after each fragment a message with its length is complete exactly if all of it has arrived |
| `HttpRoundTrip.ChunkedCompleteWhenWhole` | spserver/sphttpmsg.cpp:153-250 | and one in chunks exactly if its zero-size line has |
| `HttpRoundTrip.ChunkedAfterEachFragment` | spserver/sphttpmsg.cpp:153-250 | once the head has arrived, what has been taken behind it after each fragment is exactly the chunks that are whole |
| `HttpMsgParser.StrTok` | spserver/sphttpmsg.cpp:122-123 | the loop finds the first token between line ends and where it begins, or that there is none |
| `HttpMsgParser.SplitLine` | spserver/sphttpmsg.cpp:104-131 | the three tokenizing loops together give the name and value, no header without a colon, and a fault with nothing after it |
| `HttpMsgParser.ReadSize` | spserver/sphttpmsg.cpp:133-167 | the length of the line, and the number its first 31 bytes give with the in-place tokenizer, 0 if no line has arrived |
| `HttpMsgParser.HttpMsgParser.ParseHeaders` | spserver/sphttpmsg.cpp:221-229 | the loop over header lines takes all the bites there are |
| `HttpMsgParser.HttpMsgParser.ParseChunked` | spserver/sphttpmsg.cpp:153-189 | the loop over chunks comes to what append comes to |
| `HttpMsgParser.HttpMsgParser.ParseContent` | spserver/sphttpmsg.cpp:191-207 | content of given length is taken all at once or not at all |
| `HttpMsgParser.HttpMsgParser.AppendBuffer` | spserver/sphttpmsg.cpp:209-250 | the method with its phases and loops comes to what append comes to as a function |
| `DotText.UnstuffUndoesStuff` | spserver/spmsgdecoder.cpp:150-159 | taking the dots out undoes putting them in, for every text |
| `DotText.UnstuffKeepsTheFirstDot` | spserver/spmsgdecoder.cpp:155-159 | for a text stuffed as the standard says this holds exactly if it does not begin with a dot |
| `DotText.StuffIsStuffed` | spserver/spmsgdecoder.cpp:155-159 | in a stuffed text every dot behind an LF has a dot behind it |
| `DotText.NoneBefore` | spserver/spmsgdecoder.cpp:138-142 | a stuffed text with its terminator has no terminator before that one |
| `DotDecoders.SeamParts` | spserver/spmsgdecoder.cpp:239-247 | a terminator across a chunk boundary has between one and four characters in either part, so both assertions of the source hold |
| `DotDecoders.Buffer.Find` | spserver/spbuffer.cpp:152-175 | the first occurrence, or -1 if there is none |
| `DotDecoders.StaysExactly` | spserver/spmsgdecoder.cpp:155-159 | for every text the loop ends inside its buffer exactly if behind the first character there is a NUL, in the text or at its end, that does not follow LF and a dot |
| `DotDecoders.StaysInIfRemovable` | spserver/spmsgdecoder.cpp:155-159 | for a text without NUL exactly if it is not empty and does not end with LF and a dot |
| `DotDecoders.DotOnTheLastLine` | spserver/spmsgdecoder.cpp:131-159 | an input on which the loop runs out of its buffer |
| `DotDecoders.RemoveDots` | spserver/spmsgdecoder.cpp:153-159 | the in-place loop stays in its buffer exactly then, and computes the unstuffed text, never reading a byte it has overwritten |
| `DotDecoders.DotTermMsgDecoder.DecodeBuffer` | spserver/spmsgdecoder.cpp:131-170 | for every buffer: gives the text before the terminator and leaves what follows it, leaves everything, or runs out of the copy |
| `DotDecoders.DotTermChunkMsgDecoder.DecodeBuffer` | spserver/spmsgdecoder.cpp:194-260 | the same over chunks moved aside and a terminator that may cross the last of them; it reads before a last chunk of less than five characters |
| `DotDecoders.DotTermChunkMsgDecoder.FinishAtSeam` | spserver/spmsgdecoder.cpp:223-251 | a terminator across the seam is taken out of the last chunk and of the buffer |
| `DotDecoders.DotTermChunkMsgDecoder.GetMsg` | spserver/spmsgdecoder.cpp:262-295 | the chunks put together and unstuffed, unless the loop runs out of them; the list is empty then |
| `DotRefinement.DecodesWhatWasSent` | spserver/spmsgdecoder.cpp:131-170 | stuffing, terminating and decoding gives a text without NUL back and leaves what follows, exactly if the text is not empty |
| `DotRefinement.SentIsRemovable` | spserver/spmsgdecoder.cpp:153-159 | stuffed, every text without NUL but the empty one is one the loop does not run over the end of |
| `DotRefinement.SimpleDecoder` | spserver/spmsgdecoder.cpp:131-170 | over any fragments, with whatever behind the terminator, the simple decoder waits for the call with which the terminator arrives, gives the text then and keeps what follows |
| `DotRefinement.ChunkDecoder` | spserver/spmsgdecoder.cpp:194-295 | the decoder with chunks does so exactly if what it has moved aside does not cut the terminator, or no later terminator has arrived |
| `DotRefinement.DecodersAgree` | spserver/spmsgdecoder.cpp:131-295 | so for every non-empty text without NUL, every fragmentation with empty pieces too and whatever follows, both report on the same call, with the same text and the same rest exactly under that condition |
| `DotRefinement.SafeWithNothingBehind` | spserver/spmsgdecoder.cpp:210-260 | the condition holds if nothing has arrived behind the terminator yet |
| `DotRefinement.NextTextIsSwallowed` | spserver/spmsgdecoder.cpp:194-260 | it fails for every text of 61440 characters or more that is cut behind the CR of its terminator with another text following at once |
| `DotLineFeeds.LfTerminator` | spserver/spmsgdecoder.cpp:138-142 | the terminator LF dot LF of a stuffed text is found exactly if no CRLF dot CRLF has arrived behind it; then that one is found |
| `DotLineFeeds.DecodesWhatWasSentWithLf` | spserver/spmsgdecoder.cpp:131-170 | a text without NUL sent with that terminator is given back, and what follows left, exactly if it is not empty and no CRLF dot CRLF has arrived behind it |
| `DotLineFeeds.ChunkDecodesLf` | spserver/spmsgdecoder.cpp:196-219 | the decoder with chunks does the same while nothing has been moved aside |
| `DotLineFeeds.ChunkDecodesLfAtSeam` | spserver/spmsgdecoder.cpp:220-251 | a terminator LF dot LF across the end of what has been moved aside is taken out of both parts, leaving the text and what follows |
| `Smtp.HandleAgrees` | spserver/spsmtp.cpp:339-487 | whatever arrives and whatever the handler says, the call made is legal and the flags go on saying what has happened |
| `Smtp.EveryRunIsLegal` | spserver/spsmtp.cpp:339-487 | so every handler call of every run is legal where it is made |
| `Smtp.DecoderMatches` | spserver/spsmtp.cpp:345-463 | the decoder handle casts to is the one installed, in every run |
| `Smtp.DataIsJustified` | spserver/spsmtp.cpp:345-463 | data() runs only right after the invitation, with an accepted greeting, sender and recipient before it in that order and no reset since the sender |
| `Smtp.NothingNewBeforeReset` | spserver/spsmtp.cpp:418-467 | after an invitation no from() and no rcpt() runs until a reset |
| `Smtp.CommandsRunExactlyWhenLegal` | spserver/spsmtp.cpp:376-463 | HELO, EHLO, MAIL and RCPT with arguments, and DATA, run their handler exactly when that is legal |
| `Smtp.SecondTextNeedsNoSender` | spserver/spsmtp.cpp:452-463 | with other commands in between but no new MAIL, DATA is accepted again after a mail text exactly if there has been no reset |
| `Smtp.ResetForgets` | spserver/spsmtp.cpp:188-195 | after a reset nothing that is said or called, over any further turns, depends on what came before it but for the greeting and the authentication |
| `SmtpAdapter.SmtpSession.RunCommand` | spserver/spsmtp.cpp:376-481 | the branches on the command word do what the machine says |
| `SmtpAdapter.SmtpSession.HandleMessage` | spserver/spsmtp.cpp:339-487 | one call of handle does what the machine says, -1 exactly when the connection is to end |
| `SmtpLines.LineIsSplit` | spserver/sputils.cpp:230-285 | blanks, a word, blanks and an argument: the word, cut to 127 characters, and the argument, if any |
| `SmtpLines.VerbExactly` | spserver/spsmtp.cpp:376-477 | a word is a command exactly if it is one of the ten names in any case |
| `SmtpLines.AddressIsCarried` | spserver/spsmtp.cpp:425-445 | the address is the argument without FROM: or TO: in any case and without blanks before it |
| `SmtpLines.GreetingLine` | spserver/spsmtp.cpp:376-415 | a line HELO or EHLO in any case makes that call with its argument exactly if there is one and no greeting has been accepted; else 501 or 503 |
| `SmtpLines.AuthLine` | spserver/spsmtp.cpp:388-404 | a line AUTH asks for the user exactly after a greeting, without success before, and with LOGIN in any case; else 503, 501 or 504 |
| `SmtpLines.SenderLine` | spserver/spsmtp.cpp:418-432 | a line MAIL makes the sender's call with the address exactly after a greeting and with no sender yet; else 503 or 501 |
| `SmtpLines.RecipientLine` | spserver/spsmtp.cpp:434-450 | a line RCPT makes the recipient's call with the address exactly after a greeting and a sender and with no mail text since; else 503 or 501 |
| `SmtpLines.DataLine` | spserver/spsmtp.cpp:452-463 | a line DATA invites the text exactly after a greeting, a sender and a recipient; else 503 |
| `SmtpLines.OtherLine` | spserver/spsmtp.cpp:465-481 | RSET, NOOP and HELP always make their call, QUIT ends the connection |
| `SmtpLines.UnknownLine` | spserver/spsmtp.cpp:479-481 | a line whose word is no command in any case is answered with 500 and nothing else |
| `SmtpLines.TextIsHandedOver` | spserver/spsmtp.cpp:345-353 | the message taken in data mode is handed over whole |
| `SmtpLines.LoginIsPassedOn` | spserver/spsmtp.cpp:355-366 | the line after AUTH LOGIN is passed on as the user and the next as the password, each cut to 127 characters |
| `SmtpLines.StandingMeans` | spserver/spsmtp.cpp:376-469 | what a log stands for, in terms of the calls in it and the resets behind them |
| `SmtpLines.FlagsInARun` | spserver/spsmtp.cpp:376-469 | over every run the session's flags say what has been called and accepted, and since when there has been no reset |
| `SmtpLines.GreetingInARun` | spserver/spsmtp.cpp:376-415 | over every run the greeting lines make their call exactly if no greeting has been accepted |
| `SmtpLines.SenderInARun` | spserver/spsmtp.cpp:418-432 | a MAIL line exactly after a greeting and with no sender since the last reset |
| `SmtpLines.RecipientInARun` | spserver/spsmtp.cpp:434-450 | a RCPT line exactly with such a sender and no invitation since the last reset |
| `SmtpLines.InvitationInARun` | spserver/spsmtp.cpp:452-463 | a DATA line exactly with such a sender and such a recipient |

## Left out

Assumptions the model makes:

- A callback of the event loop is one atomic step; the races of a worker's status and flag writes with the
  middle of a callback are not modelled.
- Session generations are unbounded in the protocol model; the 16-bit wrap is modelled in `SessionManager`
  alone.
- Each message pointer appears in one response, once. Sessions and messages are values held in maps and
  lists, so two pointers to one message are one index and not two aliases.
- Tasks are grouped by session; the executor may take them in any order.
- Condition variables have no spurious wake-ups, memory allocation does not fail, and the sizes of a buffer
  and a chunk with its size line stay below the width of the C types that hold them.
- `find` returns a pointer that the decoders use again after making room for a NUL; the model keeps the
  position, so it does not capture what happens if that room moves the bytes.
- The timer callbacks themselves and what `doTimeout` does besides the running flag and the heap are not
  part of `Timeouts`, and neither is how long the IOCP loop waits for the next deadline.

Parts of the repository that are not part of this model:

- Sockets, libevent, Win32 and completion ports, signals, `writev` itself: they are the nondeterministic
  results the steps and methods take as input.
- The IOCP session protocol beyond `onTimeout` and the timer heap: its doClose and failed sends drop queued
  messages without completing them, so the conservation result is about the libevent side.
- The SSL plugins, the server and dispatcher set-up, logging, and destructors and shutdown.
- Splitting the HTTP start line into its parts, form parameters and the formatting of replies.
- Line splitting by `evbuffer_readline`; the SMTP machine takes whole lines.
- The texts of SMTP replies: a reply the session gives itself is its code.
- `welcome`, `error` and `timeout` of the SMTP handler, which do not depend on the session's state.

Members stated with a limit of their own:

- EventHeap.EventHeap.RemoveAt: the source makes one call of shiftDown; the model makes the same call in two methods, one for the last entry, because the two cases are argued separately.
- RingBuffers.CircQueue.constructor: excludes sizes above 2^31, for which `nextpow2` has no answer; RingBuffers.ArraySize states exactly when it has one.
- EventHeap.EventHeap.Push: requires that the item is not in the heap already; the source would store it twice, and EventHeap.EventHeap.OncePerEvent says that then no index can be right for it.
- DotDecoders.DotTermChunkMsgDecoder.DecodeBuffer: requires that no terminator is in a chunk moved aside, which holds from the beginning and as long as the text of a completion is taken with getMsg before the next call, as the SMTP session does; otherwise a chunk may end with LF, dot, LF, and the source would then drain a negative number of bytes.
- DotDecoders.Buffer.Find: the buffer of the decoders is its contents; the storage under it is ByteBuffer, and the two are not composed.
- HttpMsgParser.HttpMsgParser.AppendBuffer: strtol, atoi, memchr and the look-up of a header are functions, as library calls and pure searches; the tokenizing loops are methods.
- ProtocolEnds.EverySessionCanEnd: says that such a continuation exists, not that every run in which all parties go on comes to one.
- ThreadPool.StepKeeps: threads are steps on a state and not objects, because their interleavings are the point; update in place is not captured.
- MessageQueue.StepKeeps: modelled on values for the same reason.
