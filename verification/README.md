# Verified models of a game server engine

The engine runs an IO thread over a vendored libevent and a logic thread over Lua, and carries its own wire codecs, a
BSON driver and small utilities. This project models the parts of it whose behaviour depends on state kept consistent
over many calls, and proves what that state promises. Check everything with `dafny verify dfyconfig.toml`.

## What is modelled

- **Timers** (`Lists`, `MinHeap`, `TimerQueue`, `TimerSteps`, `TimerRuns`, `TimerOrder`, `TimerLife`, `EventBase`). A
  min-heap with back-indices in each event, and common-timeout queues each stood for in the heap by one internal event.
  The steps are functions on a state, proved to refine one priority queue `Deadlines`; the class `Base` does them on a
  real heap and lists.
- **The pipeline between the threads** (`MsgQueue`, `PipelineSpec`, `Pipeline`, `PipelineOrder`, `PipelineProgress`). A
  locked pool and two unlocked rings. Each read or write of an index or a slot is an atomic step of its own, under
  sequential consistency.
- **evbuffer** (`Chains`, `EvBuffer`, `EvTransfer`, `EvPullup`, `EvSearch`, `EvRuns`). Chains live in an explicit
  memory, linked by addresses, allocated and freed; every operation is proved against the flat byte string.
- **fd map and changelist** (`EvmapSpec`, `EvmapModes`, `Evmap`), **rate limiting** (`TokenBucket`, `RateGroup`,
  `RateRecovery`, `RateEffects`), **IPv6 text** (`Inet6Text`, `Inet6`, `Inet6Form`, `Inet6Api`, `Inet6Grammar`),
  **BSON** (`BsonSpec`, `BsonBytes`, `Bson`, `BsonTree`), **LZ77** (`Lz77`), **SHA-1** (`Sha1Spec`, `Sha1`,
  `Sha1Sample`), the **chained hash table** (`HashTable`), the **template codec** (`TemplateSpec`, `TemplateCodec`,
  `ProtoParser`) and **WebSocket frames** (`ByteStream`, `WebSocketSpec`, `WebSocket`). `Lists` and `InPieces` hold what
  several of them need of sequences.

Code that updates fields or arrays is modelled by classes and loops; each method is tied to a function of the old state,
and what the source promises is proved about that function.

## Where the code does less than it seems to promise

- The merge of the two queues is not in step order in every run: a disconnect notice can be handled ahead of an older
  client message when the client message is published between the two peeks. That is the only way, and it is never made
  good (`PipelineOrder.InStepOrderIff`).
- `evutil_inet_ntop` accepts a buffer that the text exactly fills and then cuts the last char (`Inet6.Ntop`,
  `Inet6Api.ExactBufferMisleads`).
- `bson_append_regex` checks the pattern after writing the element's header; a later failing `bson_append_finish_object`
  overwrites the error, and the torn document can then be finished (`BsonTree.TornDocumentFinishes`). An element is torn
  exactly if there is room and only the pattern fails (`Bson.Builder.AppendRegex`), and what is finished is the document of
  the tree if and only if none was (`Bson.Builder.Finish`).
- `evutil_inet_pton` accepts more than RFC 4291 section 2.2: a colon behind the last word and a 0x in front of one
  (`Inet6Grammar.AcceptedIff`, `Inet6Grammar.ColonIgnored`).
- A token bucket above its maximum, where a negative decrement can take it (`TokenBucket.ManualRefill`), is not clipped by
  an update unless almost 2^64 bytes are due at once (`TokenBucket.ClippedIff`).
- The packer takes a match of 258 bytes or more for none (`Lz77.OfferIsExact`).
- `HT_REPLACE` of an element by itself counts it twice (`HashTable.Table.Replace`), and `HT_GROW` reads past its list of
  primes for sizes from 805306370 on (`HashTable.StopsInsideIff`).
- The frame loop gives up on a packet whose own length is not its frame's; complete frames behind it then wait for the
  next arrival, so that the split matters (`WebSocketSpec.WrongLengthDefers`) exactly if a message comes behind
  (`WebSocketSpec.EverySplitIff`).
- A WebSocket length code of 127 is read as four bytes, where RFC 6455 section 5.2 has eight; the model follows the code.
- `write_msg_dfs` reports success even if the send buffer was too small (`ProtoParser.Parser.WriteMsg`), and
  `read_msg_dfs` ignores a failure inside an array of tables (`TemplateCodec.BadTableAccepted`).

## Model

| member | source | states |
|---|---|---|
| MinHeap.Heap.Push | libevent/minheap-internal.h:71-77 | the member set gains exactly the event; heap order and every event's back-index hold afterwards |
| MinHeap.Heap.Pop | libevent/minheap-internal.h:79-89 | hands out an event no later than any that stays, takes exactly it out of the member set and sets its index to -1; nothing on an empty heap |
| MinHeap.Heap.Erase | libevent/minheap-internal.h:96-115 | from any slot: exactly the event leaves, its index becomes -1, heap order and back-indices hold, one shift in one direction being enough; an event with index -1 is refused |
| MinHeap.Heap.Reserve | libevent/minheap-internal.h:117-131 | room for the wanted number of slots, the live slots unchanged |
| MinHeap.Heap.ShiftUp | libevent/minheap-internal.h:133-143 | a hole with order everywhere but towards the root is filled and the whole heap is in order |
| MinHeap.Heap.ShiftDown | libevent/minheap-internal.h:145-158 | a hole with order everywhere but towards the leaves is filled and the whole heap is in order, also when the hole is the slot just past the end |
| MinHeap.Heap.Top | libevent/minheap-internal.h:67-67 | null exactly on an empty heap, otherwise a member no later than any other, with index 0 |
| MinHeap.Heap.TopIsLeast | libevent/minheap-internal.h:71-158 | heap order between parents and children makes the root no later than any member |
| TimerQueue.InsertSorted | libevent/event.c:2533-2561 | walking back from the tail keeps a common queue sorted by deadline |
| TimerQueue.InsertAt | libevent/event.c:2533-2561 | the new event goes behind every event that is not later and ahead of all that are |
| TimerQueue.InsertTimeoutWf | libevent/event.c:2563-2603 | entering a level keeps lists, flags, counts and sortedness consistent |
| TimerQueue.RemoveTimeoutWf | libevent/event.c:2493-2531 | leaving a level keeps lists, flags, counts and sortedness consistent |
| TimerSteps.AddValid | libevent/event.c:2017-2165 | event_add, from whichever level to whichever level, keeps the invariant that every non-empty common queue has a timer no later than its head, active, or about to run its callback |
| TimerSteps.AddRefines | libevent/event.c:2017-2165 | on the abstract priority queue event_add enters or replaces exactly this deadline, and withdraws an activation caused by the old timeout |
| TimerSteps.DelRefines | libevent/event.c:2187-2259 | event_del keeps the invariant even for the head of a queue, and takes exactly this event out of the abstract queue and of the active events |
| TimerSteps.FireRefines | libevent/event.c:2466-2491 | firing a heap event: a user event leaves the abstract queue and becomes active, a queue's own timer becomes active and the queue stays covered |
| TimerSteps.HeapCoversAll | libevent/event.c:2370-2405 | with nothing active and no callback pending, for every armed event of either level some heap event is due no later |
| TimerRuns.DrainRefines | libevent/event.c:1152-1173 | the loop of the queue's callback fires exactly the due front of the queue and touches no other queue |
| TimerRuns.CallbackRefines | libevent/event.c:1152-1173 | the whole callback: all due events of its queue fired, no other event, and the queue covered again |
| TimerRuns.ProcessRefines | libevent/event.c:2466-2491 | after timeout_process exactly the due heap-level user events have left the abstract queue and are active |
| TimerRuns.RunRefines | libevent/event.c:1308-1440 | in whatever order the active internal timers run, together they fire every due queued event and nothing else |
| TimerRuns.TwoLevelsAreOneQueue | libevent/event.c:2370-2603 | timeout_process followed by the queues' callbacks in any order takes from the abstract priority queue exactly the events due now, of both levels, and activates exactly those: the two levels behave as one queue |
| TimerRuns.CorrectRefines | libevent/event.c:2413-2463 | a clock correction moves every deadline of both levels by the same amount and keeps the invariant |
| TimerRuns.DequeueUser | libevent/event.c:1308-1366 | before its callback a persistent event keeps its deadline and any other is deleted from both levels |
| TimerRuns.NextRun | libevent/event.c:1252-1298 | the next deadline of a persistent event: never in the past, the old deadline plus the interval if that is still ahead, and at most one interval from now; after a missed invocation it is now plus the interval |
| TimerOrder.FireAppends | libevent/event.c:2563-2603 | firing an event puts it at the end of the active list of its priority and moves no other |
| TimerOrder.ProcessInOrder | libevent/event.c:2466-2491 | after timeout_process every active list is what was there without the fired, followed by the fired of that priority, earlier deadlines first |
| TimerOrder.CallbackInOrder | libevent/event.c:1152-1173 | the same after a queue's callback, whose own timer leaves its list unless it is armed anew |
| TimerRuns.AssignKeeps | libevent/event.c:1714-1758 | a newly assigned event joins the base without touching either level |
| TimerRuns.NewQueueKeeps | libevent/event.c:1177-1249 | a new common queue and its timer keep the invariant and every deadline |
| EventBase.Base.constructor | libevent/event.c:548-650 | a base with no events, heap and queues empty, satisfies the invariant |
| EventBase.Base.QueueInsertTimeout | libevent/event.c:2563-2603 | heap, lists, flags and counts change as the specified step does, for a heap event and for a common one |
| EventBase.Base.QueueRemoveTimeout | libevent/event.c:2493-2531 | heap, lists, flags and counts change as the specified step does |
| EventBase.Base.InsertCommonInOrder | libevent/event.c:2533-2561 | the loop from the tail places the event as the specification does |
| EventBase.Base.CommonTimeoutSchedule | libevent/event.c:1140-1149 | the queue's timer is armed for the deadline of the queue's head |
| EventBase.Base.EventAdd | libevent/event.c:1944-1962 | on real heap and lists: the abstract queue is changed at exactly this event, and the invariant of the whole base is kept |
| EventBase.Base.AddInternal | libevent/event.c:2017-2165 | the same for a time given as a delay or as an absolute time |
| EventBase.Base.EventDel | libevent/event.c:2187-2259 | on real heap and lists: exactly this event leaves, and it is not active any more |
| EventBase.Base.ActiveNolock | libevent/event.c:2279-2318 | the list of an inactive event's priority becomes the old list followed by the event; an active one only merges its reason |
| EventBase.Base.EventActive | libevent/event.c:2261-2277 | activating any event keeps the invariant of the whole base and every deadline, and adds exactly a user event to the active ones |
| EventBase.Base.TimeoutNext | libevent/event.c:2370-2405 | with nothing active: no waiting time only if nothing is armed; otherwise the wait never reaches past any armed deadline of either level, and a positive wait ends exactly at the deadline of a heap event |
| EventBase.Base.TimeoutProcess | libevent/event.c:2466-2491 | nothing due is left in the heap, and exactly the due heap-level events were fired; in every active list the fired stand behind all that stay, earlier deadlines first |
| EventBase.Base.CommonTimeoutCallback | libevent/event.c:1152-1173 | exactly the due events of the queue leave the abstract queue; in every active list they stand behind all that stay, earlier deadlines first |
| EventBase.Base.TimeoutCorrect | libevent/event.c:2413-2463 | heap and queues move together when the clock went back, nothing moves when it did not |
| EventBase.Base.BeginUser | libevent/event.c:1308-1366 | the event leaves its active list; its deadline stays exactly if it is persistent |
| EventBase.Base.PersistClosure | libevent/event.c:1252-1298 | a persistent event with an interval is armed again for its next deadline, any other is left alone; the assertion on the two levels holds by the invariant of the base |
| EventBase.Base.Assign | libevent/event.c:1714-1758 | the event is known to the base, unarmed and inactive |
| EventBase.Base.InitCommonTimeout | libevent/event.c:1177-1249 | refused exactly at 256 queues; otherwise a new empty queue with a fresh timer |
| TimerLife.ActivateRefines | libevent/event.c:2279-2318 | an activation keeps the invariant and the abstract priority queue |
| TimerLife.StepRefines | libevent/event.c:1140-2603 | each of eleven operations (adding, deleting, activating, firing, starting a timer or a user event, a queue callback, adding a persistent event again, a clock correction, assigning an event, a new queue) keeps the invariant and changes the abstract priority queue as specified |
| TimerLife.StepAgrees | libevent/event.c:1252-1298 | every operation keeps: a persistent event's deadline and interval name the same level |
| TimerLife.EveryReachableState | libevent/event.c:1140-2603 | in every state that any run of these operations from an empty base reaches, all common queues are sorted and stood for in the heap, and the assertion of event_persist_closure holds of every event |
| EventBase.Base.RunDue | libevent/event.c:1308-1491 | timeout_process and the queues' callbacks on the real structures: afterwards the abstract queue has lost exactly the events due now and those are active |
| MsgQueue.Queue.Push | common/msg_queue.h:37-67 | fails exactly when one less than the capacity is queued; otherwise the message is last, the others unchanged |
| MsgQueue.Queue.Pop | common/msg_queue.h:27-36 | the oldest message, or nothing exactly when the ring is empty |
| MsgQueue.Queue.GetFront | common/msg_queue.h:70-76 | the oldest message without removing it |
| MsgQueue.FullIff | common/msg_queue.h:45-60 | the index test of push holds exactly when all slots but one are in use |
| MsgQueue.Pool.Alloc | common/msg_pool.h:34-48 | takes the top free node, or nothing exactly when none is free |
| MsgQueue.Pool.Release | common/msg_pool.h:49-61 | puts the node on top, refused exactly when all nodes are free |
| PipelineSpec.ConservedStep | common/thread_io.h:145-165 | every atomic step of either thread leaves each node in exactly one of the free stack, the two queues and the two threads' hands |
| PipelineSpec.NeverStuckOnSpace | logic/thread_logic.cpp:50-52 | with queues one larger than the pool no push meets a full queue and no free meets a full pool |
| PipelineSpec.StepsDiffer | logic/thread_logic.cpp:171-216 | two queued heads never carry the same step, so the assert for equal steps is unreachable |
| PipelineSpec.FifoStep | common/msg_queue.h:27-67 | each queue stays first in, first out across every step |
| PipelineSpec.LookClients | logic/thread_logic.cpp:171-216 | the logic thread binds itself to a client message only when every waiting disconnect notice is newer |
| PipelineSpec.AInvStep | logic/thread_logic.cpp:171-216 | all of the above together are kept by every step of either thread |
| Pipeline.RefineStep | common/msg_queue.h:27-77 | with every read or write of an index or a slot a step of its own, the unlocked rings do under every interleaving what plain queues do |
| Pipeline.TestsAgree | common/msg_queue.h:27-77 | at every point where a thread tests them, the indices decide full, empty and the front message correctly despite the other thread's half-done operation |
| Pipeline.NoRunFails | common/thread_io.h:145-165 | in every interleaving from the start: no overflow, no failed assert, and every node in exactly one place |
| Pipeline.EachRingIsFifo | common/msg_queue.h:27-77 | in every interleaving what was handled from a ring is a prefix of what was published on it |
| Pipeline.ClientsNeverOvertake | logic/thread_logic.cpp:171-216 | in every interleaving no client message is handled before a disconnect notice with a smaller step, handled later or still waiting |
| PipelineOrder.OrderedStep | logic/thread_logic.cpp:171-216 | one step keeps handled messages increasing in step, older than all that wait, and the next one bound the oldest left, exactly if it is not a second peek that sees a notice newer than a client message published since the first peek |
| PipelineOrder.OrderedIffNeverTorn | logic/thread_logic.cpp:171-216 | a run keeps that in every state exactly if no such peek occurs in it |
| PipelineOrder.TornNeverRecovers | logic/thread_logic.cpp:171-216 | after such a peek, in every continuation that handles the client message that was waiting, the handled sequence is not increasing |
| PipelineOrder.InStepOrderIff | logic/thread_logic.cpp:171-216 | of a run from the start that leaves no client message waiting, the handled sequence is strictly increasing in step if and only if no such peek occurred |
| PipelineOrder.HandledInStepOrder | common/msg_struct.h:121-124 | from the start, without such a peek the handled sequence is strictly increasing in step, whatever still waits |
| PipelineOrder.NoticeOvertakesClient | logic/thread_logic.cpp:171-216 | a run in which a disconnect notice with step 2 is handled while the client message with step 1 still waits, so the condition is needed |
| PipelineProgress.EveryMessageIsHandled | logic/thread_logic.cpp:171-216 | from every reachable state, while the IO thread rests, at most 11 steps of the logic thread for each waiting message and 4 more empty both rings, and then exactly what was published on each ring has been handled, in order |
| PipelineProgress.FourStepsPublish | common/thread_io.h:145-165 | a node that is being filled is published by four steps of the IO thread, with the next step number, its kind and its body |
| PipelineProgress.PublishedAsAllocated | common/thread_io.h:145-165 | over any run the published messages, and the one in hand, carry kinds and bodies of the allocations that were not discarded, in their order |
| Chains.SegmentJoin | libevent/buffer.c:283-311 | two linked lists joined by one link make the list of all their chains |
| Chains.SegmentCut | libevent/buffer.c:1121-1150 | a list of chains cut after any chain is two lists |
| EvBuffer.Heap.Alloc | libevent/buffer.c:155-182 | a chain of the computed size at an address not in use |
| EvBuffer.Evbuffer.Drain | libevent/buffer.c:950-1017 | the first bytes leave the flat string, a frozen start is refused, and no chain outside the buffer changes or leaks |
| EvBuffer.Evbuffer.Copyout | libevent/buffer.c:1034-1078 | the wanted prefix of the flat string, which stays as it is |
| EvBuffer.Evbuffer.Remove | libevent/buffer.c:1020-1032 | what is returned followed by what stays is the old string |
| EvBuffer.Evbuffer.Add | libevent/buffer.c:1533-1617 | the flat string grows by the data at its end, through the last chain's space, realignment or a new chain |
| EvBuffer.Evbuffer.Prepend | libevent/buffer.c:1619-1691 | the flat string grows by the data at its front |
| EvBuffer.Evbuffer.ChainInsert | libevent/buffer.c:283-311 | a new chain becomes the last, empty chains behind the data are freed, and last_with_datap is right again |
| EvBuffer.Evbuffer.FirstVictim | libevent/buffer.c:264-278 | the link to the first of the empty chains at the end |
| EvTransfer.AddBuffer | libevent/buffer.c:858-902 | the whole other buffer moves to the end: one string is the concatenation, the other empty; frozen ends are refused |
| EvTransfer.PrependBuffer | libevent/buffer.c:904-948 | the whole other buffer moves to the front |
| EvTransfer.RemoveBuffer | libevent/buffer.c:1083-1171 | exactly the first bytes asked for, or all there are, move from one buffer's front to the other's end, whole chains relinked and the last part copied |
| EvTransfer.AdvanceLastWithData | libevent/buffer.c:645-659 | from any link of the list, over all chains that hold data, up to the last before an empty one or the end; how many it passed |
| EvPullup.Pullup | libevent/buffer.c:1173-1283 | the flat string is unchanged, and on success its first bytes lie in the first chain; it succeeds exactly for a positive amount that is there |
| EvSearch.PtrSet | libevent/buffer.c:2410-2450 | succeeds exactly below the total length, and then chain and offset in chain name that position |
| EvSearch.SameAt | libevent/buffer.c:2456-2488 | true exactly if the bytes occur at that flat position, however they straddle chains |
| EvSearch.SearchRange | libevent/buffer.c:2496-2559 | the least flat position at or after the start where the pattern occurs, within the end if one is given, or -1 when there is none, however the bytes split into chains |
| EvSearch.FindEolChar | libevent/buffer.c:1317-1342 | the first CR or LF of the bytes |
| EvSearch.FindEol | libevent/buffer.c:1344-1364 | the first CR or LF at or after a flat position |
| EvSearch.SpanEol | libevent/buffer.c:1366-1403 | the length of the run of CR and LF from a flat position on |
| EvSearch.SearchEol | libevent/buffer.c:1415-1488 | for each of the four styles the least flat position with a line end of that style, and that line end's length |
| EvSearch.EolSamples | libevent/buffer.c:1415-1488 | what each style takes for a line end in a CR LF CR LF |
| EvRuns.Readln | libevent/buffer.c:1490-1527 | the bytes before the first line end, which is removed with them; no line only if there is none or the start is frozen |
| EvRuns.RunAll | libevent/buffer.c:858-1691 | any sequence of operations on two buffers does to their strings what it does to plain strings, and touches or leaks no other memory |
| EvRuns.BytesConserved | libevent/buffer.c:858-1171 | sequences that only move bytes between the two buffers neither lose nor duplicate a byte |
| EvmapSpec.IndexBijection | libevent/evmap.c:615-655 | pending changes and the fds that have one correspond one to one through idxplus1 |
| EvmapSpec.CountsAreWanted | libevent/evmap.c:263-331 | reader and writer counts of a slot are positive exactly for what its list asks for |
| EvmapSpec.IoAddKeepsInv | libevent/evmap.c:263-331 | evmap_io_add keeps: counts are those of the list, and the backend's mask with the pending change applied is the wanted mask |
| EvmapSpec.IoDelKeepsInv | libevent/evmap.c:336-387 | so does evmap_io_del |
| EvmapSpec.FlushIsExact | libevent/evmap.c:559-578 | after a flush the backend watches reading exactly if some listed event reads and writing exactly if some writes, for every fd |
| EvmapSpec.LazyIsEager | libevent/evmap.c:615-726 | however adds, deletes and flushes interleave, flushing gives each fd the mask that making every change at once would have given |
| EvmapModes.LazyModesAreEager | libevent/evmap.c:636-726 | and each kind that is watched ends up in the trigger mode, edge-triggered or not, that making every change at once would have given |
| Evmap.Base.GetOrConstruct | libevent/evmap.c:615-644 | the pending change of the fd, new with the old mask if there was none |
| Evmap.Base.ChangelistAdd | libevent/evmap.c:646-675 | the pending change is rewritten as specified |
| Evmap.Base.ChangelistDel | libevent/evmap.c:677-726 | a delete cancels a pending add of what was not watched before, as specified |
| Evmap.Base.IoAdd | libevent/evmap.c:263-331 | refused without any change on a mixed edge-triggered list or too many events; otherwise tells the backend exactly of first readers and writers |
| EvmapSpec.RefusedIff | libevent/evmap.c:263-331 | refused exactly if the list would have more than 65535 readers or writers or, with debugging on, its first event has the other trigger mode |
| Evmap.Base.IoDel | libevent/evmap.c:336-387 | tells the backend exactly of last readers and writers |
| Evmap.Base.RemoveAll | libevent/evmap.c:559-578 | every pending change and every fd's index to one is cleared |
| Evmap.Base.Flush | libevent/evmap.c:559-578 | the backend agrees with every list and nothing is pending |
| TokenBucket.RefillIsClippedSum | libevent/bufferevent_ratelim.c:73-110 | the division-guarded update is the naive sum clipped at the maximum, with no overflow |
| TokenBucket.TokenBuckets.Reinit | libevent/bufferevent_ratelim.c:49-70 | a new configuration clips both limits downwards |
| TokenBucket.TokenBuckets.Update | libevent/bufferevent_ratelim.c:73-110 | both buckets updated for the elapsed ticks; a zero or backward difference changes nothing |
| TokenBucket.WordTicks | libevent/bufferevent_ratelim.c:73-95 | across 32-bit wrap-around the word difference never exceeds the true one and equals it for gaps that fit a word |
| TokenBucket.BandwidthConserved | libevent/bufferevent_ratelim.c:275-310 | over any run of updates and charges: bytes charged plus the limit left never exceed the first limit plus rate times elapsed ticks |
| TokenBucket.ClippedIff | libevent/bufferevent_ratelim.c:73-110 | for any limit: the update is the clipped sum if and only if the limit is at most the maximum or the ticks are worth at least 2^64 less the excess, the guard being computed in size_t |
| TokenBucket.ManualRefill | libevent/bufferevent_ratelim.c:900-925 | the documented refill by a negative decrement takes a new bucket above its maximum, and a tick later it is higher still |
| TokenBucket.TokenBuckets.DecrementRead | libevent/bufferevent_ratelim.c:900-911 | the limit falls by the decrement, or rises by a negative one |
| RateGroup.ForEachRandomOrder | libevent/bufferevent_ratelim.c:473-486 | the macro visits every member exactly once from any random start |
| RateGroup.StepKeepsInv | libevent/bufferevent_ratelim.c:352-373 | every step of any thread keeps: a flagged member belongs to a suspended or pending group, is still to be visited, or is about to be flagged by a thread holding its lock |
| RateGroup.NoStrandedMember | libevent/bufferevent_ratelim.c:732-776 | in every interleaving, outside a pass, a member that carries the group's flag or is about to belongs to a group that is suspended or has an unsuspend pending |
| RateGroup.UnsuspendPass | libevent/bufferevent_ratelim.c:487-503 | a pass clears exactly the members whose locks it gets, and asks for another exactly if it missed one |
| RateGroup.QuietRefillUnsuspendsAll | libevent/bufferevent_ratelim.c:528-556 | a refill that reaches the minimum share while no member is locked leaves no member flagged and nothing pending |
| RateEffects.ChargeEffect | libevent/bufferevent_ratelim.c:275-373 | a charge that uses the limit up suspends the group and flags exactly the members whose locks are got, and drops a pending unsuspend; one that leaves a suspended group some limit frees exactly those members and asks for another pass if one was missed; any other changes the limit alone |
| RateEffects.RefillEffect | libevent/bufferevent_ratelim.c:487-556 | a refill that reaches the minimum share while the group is suspended, or an unsuspend is pending, frees exactly the members whose locks are got and asks for another pass exactly if one was missed; any other changes the limit alone |
| RateEffects.NoticeEffect | libevent/bufferevent_ratelim.c:230-245 | a member that reads while its group is suspended becomes flagged, and nothing else changes |
| RateEffects.JoinEffect | libevent/bufferevent_ratelim.c:732-776 | whatever other threads do in between, joining makes the bufferevent a member, flagged exactly if the group was suspended when it joined |
| RateEffects.LeaveEffect | libevent/bufferevent_ratelim.c:786-803 | whatever other threads do in between, leaving ends with the bufferevent no member and not flagged |
| RateRecovery.RecoveryIff | libevent/bufferevent_ratelim.c:487-556 | bucket and callback together: a suspended group on which nothing is charged, its members not locked, has no flagged member and nothing pending once rate times ticks make up for what its limit lacks of the minimum share, over whatever number of callbacks, and until then only its limit has changed |
| RateRecovery.RecoversWithin | libevent/bufferevent_ratelim.c:528-717 | the deficit divided by the rate and rounded up is a number of ticks that is enough, the minimum share being at most the rate |
| Inet6.FindGap | libevent/evutil.c:1634-1651 | the leftmost of the longest runs of at least two zero words, or none (RFC 4291 section 2.2) |
| Inet6.Print | libevent/evutil.c:1606-1674 | the text is one of the forms for the address: words with that gap, or a dotted-quad form |
| Inet6.Ntop | libevent/evutil.c:1606-1674 | refused exactly if the text is longer than the buffer; whole exactly if it is shorter |
| Inet6.RoundTrip | libevent/evutil.c:1606-1786 | parsing whatever is printed for an address gives the address, for all 128-bit addresses and both dotted-quad forms |
| Inet6.TextsDiffer | libevent/evutil.c:1606-1674 | no two addresses share a text |
| Inet6Form.DigitsForm | libevent/evutil.c:1655-1666 | numbers are printed with small letters and no zero in front |
| Inet6Form.TextForm | libevent/evutil.c:1606-1674 | a text holds small hexadecimal digits, colons and dots only; it has a dotted quad exactly if the first five words are zero and the sixth is all ones, or is zero in front of two words that are not |
| Inet6Form.WordsShown | libevent/evutil.c:1634-1674 | any other text is all eight words joined by colons, but for the leftmost of the longest runs of two zero words or more, for which two colons stand |
| Inet6.WordsRoundTrip | libevent/evutil.c:1701-1786 | printed words are parsed back wherever the gap stands |
| Inet6.CompatibleRoundTrip | libevent/evutil.c:1616-1623 | so is the form for IPv4-compatible addresses |
| Inet6.MappedRoundTrip | libevent/evutil.c:1616-1628 | and the form for IPv4-mapped addresses |
| Inet6Api.ScanWords | libevent/evutil.c:1735-1764 | the parser's loop accepts and leaves exactly what the recursive grammar does |
| Inet6Api.InetPton | libevent/evutil.c:1701-1786 | for every string whose numbers fit an int: the bytes of an address exactly if the grammar accepts it |
| Inet6Api.ParseOk | libevent/evutil.c:1701-1786 | for every string: what is accepted has eight words of 16 bits, and the branch marked impossible is |
| Inet6Api.ThereAndBack | libevent/evutil.c:1606-1786 | printer then parser on any sixteen bytes: refused exactly if the text is longer than the buffer, and with a buffer longer than the text the same bytes; 40 chars always do |
| Inet6Api.TextFits | libevent/evutil.c:1606-1674 | no text is longer than 39 chars |
| Inet6Api.ExactBufferMisleads | libevent/evutil.c:1670-1674 | a buffer the text exactly fills is not refused and loses the last char: "::1" comes back as another address |
| Inet6Grammar.AcceptedIff | libevent/evutil.c:1701-1786 | for every string and address: the parser reads this address from the string if and only if the string is words of one to four hex digits, at most one double colon standing for the words that are missing, and perhaps a dotted quad of bytes as scanf reads them, that mean the address; also allowed are a colon behind the last word and a 0x in front of a word |
| Inet6Grammar.ColonIgnored | libevent/evutil.c:1735-1764 | a text without a quad means the same with and without a colon behind its last word |
| BsonSpec.ElementsBack | mongo_c_driver/bson.c:331-399 | reading the elements of a list up to its final NUL gives the list, at every depth |
| BsonSpec.DocumentBack | mongo_c_driver/bson.c:308-414 | the length prefix of a document equals its byte length, and reading it gives the tree |
| BsonSpec.ElementSplit | mongo_c_driver/bson.c:401-414 | an element splits, as the iterator splits it, into type byte, key up to its NUL, and the value right behind |
| Bson.Builder.EnsureSpace | mongo_c_driver/bson.c:700-732 | succeeds exactly if there is room or the block is owned and block and request together stay below the largest size; the bytes written are kept; on failure the block is unchanged and an error is set |
| Bson.Builder.EStart | mongo_c_driver/bson.c:776-796 | succeeds exactly on an unfinished document, a valid key and room; then type byte and key stand behind the bytes written, with room for the value; nothing written if refused |
| Bson.Builder.GrowStack | mongo_c_driver/bson.c:643-673 | the stack of open objects grows and keeps its entries |
| Bson.Builder.AppendText | mongo_c_driver/bson.c:854-872 | succeeds exactly if key and string pass the check and there is room; the innermost open object gains exactly this string field |
| Bson.Builder.AppendBinary | mongo_c_driver/bson.c:922-940 | succeeds exactly on a valid key and room; the innermost open object gains exactly this binary field, in the old subtype's doubled form too |
| Bson.Builder.AppendRegex | mongo_c_driver/bson.c:955-965 | succeeds exactly if key and pattern pass the check and there is room; the innermost open object gains exactly this field; it leaves a torn element exactly if there is room and the key passes but the pattern does not |
| Bson.Builder.AppendInt | mongo_c_driver/bson.c:802-807 | succeeds exactly on a valid key and room; the innermost open object gains exactly this field |
| Bson.Builder.AppendEight | mongo_c_driver/bson.c:809-821 | the same for the eight-byte types |
| Bson.Builder.AppendBool | mongo_c_driver/bson.c:823-828 | the same for booleans |
| Bson.Builder.AppendPlain | mongo_c_driver/bson.c:830-852 | the same for the types without a value |
| Bson.Builder.AppendOid | mongo_c_driver/bson.c:942-947 | the same for object ids |
| Bson.Builder.StartObject | mongo_c_driver/bson.c:1023-1037 | succeeds exactly on a valid key and room; one more open object or array, empty |
| Bson.Builder.FinishObject | mongo_c_driver/bson.c:1039-1064 | succeeds exactly with an object open and room, so never on a finished document; the innermost object becomes a field of the one around it, its length back-patched; without an open object all errors are replaced by one |
| Bson.Builder.Finish | mongo_c_driver/bson.c:734-754 | succeeds exactly without a UTF-8 error and with room below the largest size; then the bytes are the encoding of everything appended, every nested length right, if and only if no element was torn; the first four bytes, lowest first, weigh the number of bytes written |
| BsonBytes.Le32Weighs | mongo_c_driver/bson.c:685-688 | a word is written lowest byte first |
| BsonBytes.Int32Weighs | mongo_c_driver/bson.c:685-688 | and read so, with a sign |
| BsonBytes.DocumentWeighs | mongo_c_driver/bson.c:734-754 | a document's first four bytes weigh its own length, and its last byte is 0 |
| BsonBytes.ElementStarts | mongo_c_driver/bson.c:776-800 | every type has the byte of the BSON specification in front of its key and a 0 |
| BsonBytes.HelloWorld | mongo_c_driver/bson.c:685-872 | the document with the string hello: world is the bytes that the BSON specification prints |
| BsonBytes.Awesome | mongo_c_driver/bson.c:685-872 | so is its sample with an array of a string, a double and an int |
| BsonBytes.OtherValues | mongo_c_driver/bson.c:816-960 | samples of what the specification lays down for the other values: both forms of binary data, booleans, null, a regular expression, a negative int |
| Bson.Iterator.Next | mongo_c_driver/bson.c:331-399 | the cursor moves to the next element, past the value as its type says |
| BsonTree.Build | mongo_c_driver/bson.c:776-1064 | building a tree field by field adds exactly its fields; it succeeds exactly if every text passes the check and every append on the way finds room, along the very sizes the block grows through |
| BsonTree.SmallIsBuildable | mongo_c_driver/bson.c:700-754 | a document within half the largest size is always built, its end included |
| BsonTree.HalfIsEnough | mongo_c_driver/bson.c:700-732 | no append on the way runs out of room if the document stays within half the largest size |
| BsonTree.ReadTree | mongo_c_driver/bson.c:308-414 | walking readable bytes recursively gives the tree they encode |
| BsonTree.BuildAndRead | mongo_c_driver/bson.c:308-1064 | for every tree: building succeeds exactly if every text passes the check and room is found up to the end, and then walking the bytes gives the same tree back |
| BsonTree.TornDocumentFinishes | mongo_c_driver/bson.c:955-965 | a pattern that fails the check, then a failing finish_object, lets bson_finish succeed on bytes that are not the document of the tree |
| Lz77.OfferIsExact | logic/lz77.h:4-39 | a candidate's length is exactly how far the text repeats, and none at all from 258 on |
| Lz77.BestIsLongest | logic/lz77.h:4-39 | the match taken is the longest in the window among those shorter than 258, and of those the nearest |
| Lz77.TokenFacts | logic/lz77.h:4-39 | lengths are 3 to 257, distances 1 to 256, every byte fits, and no token is longer than twice what it stands for |
| Lz77.TokenIs | logic/lz77.h:4-39 | the packer writes a reference exactly if three bytes repeat within 256 bytes back and fewer than 258 do: the marker, the length less 2 and the distance less 1 of the longest such repetition and of those the nearest; otherwise one byte, with 0 behind a marker; and it goes on just behind what that stands for |
| Lz77.ZippedFits | logic/lz77.h:4-39 | the packed text is at most twice the text |
| Lz77.RoundTrip | logic/lz77.h:4-78 | unpacking what was packed gives the text, with overlapping copies and escaped markers |
| Lz77.Zip | logic/lz77.h:4-39 | fails exactly if the packed text exceeds the capacity |
| Lz77.Unzip | logic/lz77.h:40-78 | succeeds exactly on well-formed input whose text fits |
| Lz77.ZipUnzip | logic/lz77.h:4-78 | with twice the size for packing both succeed and the text is back |
| Sha1Spec.PaddingAligned | logic/sha1.cpp:521-566 | padding ends on a block boundary in both branches (FIPS PUB 180-1 section 4) |
| Sha1Spec.PaddingMinimal | logic/sha1.cpp:521-566 | with the fewest zero bytes that do |
| Sha1.SHA1.ProcessMessageBlock | logic/sha1.cpp:411-498 | the four stages of rounds compute the compression function of section 7 |
| Sha1.SHA1.Input | logic/sha1.cpp:175-212 | any piece extends the message; corrupted exactly from 2^64 bits on or after the result |
| Sha1.SHA1.PadMessage | logic/sha1.cpp:521-566 | afterwards the registers hold the fold of the compression function over the padded message |
| Sha1.SHA1.Result | logic/sha1.cpp:134-155 | the digest of the whole message, or failure exactly if corrupted; asking again gives the same |
| Sha1.HashPieces | logic/sha1.cpp:134-212 | however a message below 2^64 bits is cut into pieces, the digest is that of the message |
| Sha1Sample.DigestOfAbc | logic/sha1.cpp:411-566 | the digest of abc is A9993E36 4706816A BA3E2571 7850C26C 9CD0D89D, as FIPS PUB 180-1 appendix A has it |
| HashTable.BagMove | libevent/ht-internal.h:354-363 | moving one element to the front of another chain keeps every element exactly once |
| HashTable.Relink | libevent/ht-internal.h:328-345 | path one, a fresh table: every element once, each in the bucket of its hash modulo the new length |
| HashTable.RelinkInPlace | libevent/ht-internal.h:346-366 | path two, after reallocation, moving elements between chains while walking them: the same |
| HashTable.PickPrime | libevent/ht-internal.h:322-327 | the least later prime whose load limit exceeds the size, or reading on behind the list exactly if there is none |
| HashTable.StopsInsideIff | libevent/ht-internal.h:322-327 | the search stays inside the list of primes exactly if the size is below the largest load limit |
| HashTable.PrimesRise | libevent/ht-internal.h:298-308 | the primes and their load limits rise, and the largest load limit is 805306370 |
| HashTable.InItsBucket | libevent/ht-internal.h:313-371 | an element of the table is in the bucket of its hash and no other |
| HashTable.CountIs | libevent/ht-internal.h:313-371 | a table that holds each element of a map once holds as many elements as the map has keys |
| HashTable.Table.Find | libevent/ht-internal.h:139-163 | the map's element for the key, or none exactly if there is none |
| HashTable.Table.Insert | libevent/ht-internal.h:164-177 | the map gains exactly this element; while memory and primes last the table stays within its load limit |
| HashTable.Table.Replace | libevent/ht-internal.h:178-201 | the map has the new element for the key, the replaced one is returned; the count is right exactly if the element given was not already in the table |
| HashTable.Table.Remove | libevent/ht-internal.h:202-214 | the map loses exactly this key, its element is returned |
| HashTable.Table.Grow | libevent/ht-internal.h:313-371 | by either path the same elements, rightly placed, and on success a limit above the size; without memory nothing changes; for a size from the largest load limit on the search runs off the list |
| HashTable.Table.Next | libevent/ht-internal.h:262-276 | the element at the cursor, then all that was ahead of it: going on at the bucket of the element's own hash skips and repeats nothing |
| HashTable.Table.Visit | libevent/ht-internal.h:246-276 | START and NEXT visit each element of the map exactly once |
| TemplateCodec.FieldsBack | logic/proto_parser.h:48-250 | for every template and conforming value, reading at a cursor in front of its bytes gives the value and leaves the cursor just behind them |
| TemplateCodec.MessageBack | logic/proto_parser.h:48-250 | a message that is just those bytes is read in full |
| TemplateCodec.FieldsAre | logic/proto_parser.h:48-250 | conversely, what is read without falling short and conforms is, byte for byte, what writing it would give |
| TemplateCodec.OnlyItsBytes | logic/proto_parser.h:48-250 | so a message read in full is the only message for its value |
| TemplateCodec.NeverReadAll | common/msg_struct.h:60-120 | once a read falls short, no later reads make has_read_all true |
| TemplateCodec.FieldsCount | logic/proto_parser.h:48-152 | a table whose reading fails is short of fields |
| TemplateCodec.FailuresIgnored | logic/proto_parser.h:101-110 | reading an array of tables never fails; every table in it is complete exactly if each was read without failing |
| TemplateCodec.BadTableAccepted | logic/proto_parser.h:101-110 | a table that is refused alone is accepted, without its field, in an array |
| TemplateSpec.ReadFields | logic/proto_parser.h:48-152 | reading only goes forward, keeps the buffer, and leaves a cursor that fell short as it is |
| TemplateSpec.Bytes4 | common/msg_struct.h:209-218 | four bytes that give the number back up to 2^31-1 |
| TemplateSpec.BytesWeigh | common/msg_struct.h:185-218 | two and four bytes are written with the highest first |
| TemplateSpec.NetworkOrder | common/msg_struct.h:60-97 | and read so, with a sign |
| TemplateSpec.ArraySample | logic/proto_parser.h:195-241 | an array of two shorts is its count in two bytes and the shorts, byte by byte |
| TemplateSpec.ScalarSamples | logic/proto_parser.h:168-194 | the bytes of a byte, a short, an int and a string, whose length goes in front in two bytes |
| TemplateSpec.TableSample | logic/proto_parser.h:164-167 | a table is its fields' bytes with nothing around them |
| ProtoParser.MsgRecv.ReadByte | common/msg_struct.h:63-73 | the signed byte at the cursor, or 0 and the poison value |
| ProtoParser.MsgRecv.ReadShort | common/msg_struct.h:75-85 | the signed big-endian short at the cursor, or 0 and the poison value |
| ProtoParser.MsgRecv.ReadInt | common/msg_struct.h:86-96 | the signed big-endian int at the cursor, or 0 and the poison value |
| ProtoParser.MsgRecv.ReadString | common/msg_struct.h:108-120 | so many bytes, or the caller's buffer as it was and the poison value |
| ProtoParser.MsgSend.Write | common/msg_struct.h:176-226 | the bytes are appended, or dropped exactly if they do not fit |
| ProtoParser.Parser.TemplateToTree | logic/proto_parser.h:251-333 | succeeds exactly if the node is free, names and tables fit and there are nodes enough; then the arena holds the template, every edge going to a larger node, and no node but its own and the new ones has changed |
| ProtoParser.RepresentsFrame | logic/proto_parser.h:251-333 | a template depends on its root's row and the rows of its tables only, which lie above all roots |
| ProtoParser.HoldingMore | logic/proto_parser.h:251-333 | laying out one more template leaves every earlier one as it was, whatever their roots |
| ProtoParser.AddTemplate | logic/msg_ex.h:24-28 | to a parser that holds any set of templates one more is added, succeeding exactly if its root is free, it fits and there are nodes enough |
| ProtoParser.Parser.ReadMsg | logic/proto_parser.h:48-152 | the walk over the arena ends, since edges go to larger nodes, and reads what the template says, failures of tables inside arrays ignored |
| ProtoParser.Parser.WriteMsg | logic/proto_parser.h:155-250 | the walk over the arena ends and succeeds on a conforming value; its bytes are written in full exactly if they fit |
| ProtoParser.WriteThenRead | logic/proto_parser.h:48-333 | by any template of a parser that holds any set of them: value written, message read, the same value, all read |
| ByteStream.SplitAnywhere | common/thread_io.h:103-166 | for any loop body that later bytes cannot change once it does not wait: serving a stream in two parts gives the items of serving it at once; where it stopped, more bytes would not have been looked at |
| ByteStream.ArrivalsBetween | common/thread_io.h:103-166 | any number of arrivals deliver at least what one would and at most what going on past every dropped item would; the same as one unless that ends with a dropped item |
| ByteStream.EverySplitAgreesIff | common/thread_io.h:103-166 | however many arrivals a stream comes in, all ways deliver the same items if and only if serving it at once does not end with a dropped item behind which some item would have come |
| ByteStream.PiecesServed | common/thread_io.h:103-166 | of a stream of whole items exactly those that have arrived are delivered, the rest waited for |
| WebSocketSpec.RoundIsSteady | logic/websocket.h:110-140 | a round of the frame loop is such a body |
| WebSocketSpec.RoundIsPrompt | logic/websocket.h:110-140 | what is left behind a frame the moment it is complete is waited for |
| WebSocketSpec.LengthSettled | logic/websocket_request.cpp:61-82 | the first six bytes of a frame settle its length, whatever follows |
| WebSocketSpec.FrameBack | logic/websocket_request.cpp:17-25 | reading a whole frame gives the packet it was made around, unmasked (RFC 6455 section 5.3) |
| WebSocketSpec.UnmaskBack | logic/websocket_request.cpp:84-97 | masking twice with the same key gives the bytes back |
| WebSocketSpec.XorIs | logic/websocket_request.cpp:84-97 | masking gives a byte whose bits are those of the byte, each flipped exactly where the key's byte has a one |
| WebSocketSpec.XorUnique | logic/websocket_request.cpp:84-97 | and there is no other such byte |
| WebSocketSpec.Opcodes | logic/websocket_request.cpp:61-97 | a binary frame goes on with its payload, a ping or a pong with none, and any other opcode or a frame that is not final closes |
| WebSocketSpec.LongLengths | logic/websocket_request.cpp:17-61 | the frame of 256 bytes in section 5.7 of RFC 6455, and the four-byte length as the code reads it |
| WebSocketSpec.FrameMakes | logic/websocket.h:110-140 | from a frame, whatever follows it, comes its message; any proper part is waited for |
| WebSocketSpec.FramesServed | common/thread_io.h:103-166 | of any prefix of a stream of frames exactly the messages of the complete frames are delivered; of the whole stream, all |
| WebSocketSpec.WrongLengthDefers | common/thread_io.h:117-129 | an input on which the split matters: behind a frame whose packet announces a wrong length, a whole frame is delivered if it arrives by itself and left lying if both arrive together |
| WebSocketSpec.EverySplitIff | common/thread_io.h:103-166 | every split of a stream of any bytes delivers the same messages if and only if no message would come behind a packet of a wrong length that ends the serving |
| WebSocketSpec.SentBack | logic/websocket.h:77-108 | by the rules for reading a frame, what send_msg writes is an unmasked frame around the whole packet |
| WebSocketSpec.PacketBytes | logic/websocket.h:98-107 | a packet is its body's length and its id, each as two bytes with the highest first, and the body |
| WebSocket.ViewSettles | logic/websocket.h:110-119 | what the scratch buffer shows does not depend on the stale bytes in it: an incomplete frame is always too short, a complete one reads the same |
| WebSocket.Request.Fetch | logic/websocket_request.cpp:17-25 | all fields as the header says, and the frame's length; every byte of an unmasked payload has the bits of the byte sent, each flipped exactly where the key's byte i % 4 has a one |
| WebSocket.Websocket.HandlePacket | logic/websocket.h:110-140 | -2 and nothing taken exactly if the frame is not all there; otherwise it is taken, and a final binary one leaves its payload at the front of the buffer |
| WebSocket.Websocket.SendMsg | logic/websocket.h:77-108 | the frame, or nothing exactly if the length does not fit two bytes |
| WebSocket.Connection.OnRead | common/thread_io.h:103-166 | one arrival: packets delivered, bytes kept and the connection closed or not as the stream of all bytes so far says |
| WebSocket.ReadAll | common/thread_io.h:103-166 | any split of any stream, pings, pongs, closing frames and wrong lengths included: what is delivered, kept and closed is what the arrivals give; at least what comes at once, at most what comes past every dropped packet, and the same for every split of a settled stream |
| WebSocket.ReadFrames | common/thread_io.h:103-166 | every split of a stream of binary frames delivers exactly the packets of the frames that have wholly arrived |

## Left out

- Sockets, files, signals, clocks, processes and the backends (epoll, kqueue, select): a flush, a clock reading or an arrival is an input.
- Allocation failure in libevent and BSON, except in `HT_GROW`, where it chooses the path.
- Timers: a deadline is an integer and the common queue's index a separate field, where the source packs the index into tv_usec; a common queue is asked for by its index, so finding an existing queue of the same duration is not modelled.
- Timers: fd and signal sides of an event, user callbacks and EV_READ/EV_WRITE results; an event's flags and times are kept in a map from event objects to records.
- EventBase.Base.EventAdd: the timeout half of event_add only; adding to the fd or signal map and an add without a timeout are not modelled.
- EventBase.Base.EventDel: the timeout and active half of event_del only.
- EventBase.Base.InitCommonTimeout: makes a new queue; looking for an existing one of the same duration is not modelled.
- EventBase.Base.RunDue: runs the queues' callbacks in the order of the queues and no user callback between them; that any operations in between keep the invariant is TimerLife.EveryReachableState.
- MinHeap.Event: the index is a field of its own, where the source keeps it in a union with the links of the common queue; outside the heap it may hold anything.
- Pipeline: memory orders weaker than sequential consistency, the Lua handler, and `q_send`, whose capacity equals its pool's so that "push never fails" does not hold for it.
- evbuffer: reserved, expanded, pinned, referenced, mapped and file chains; callbacks and their counters; locking; the memory is an explicit map from addresses to chains.
- evbuffer: return values are not truncated from size_t to int; the branch of PREPEND_CHAIN for an empty destination is not reached from its callers.
- fd map: the map of signals, and the syscalls that a flush makes.
- Rate limiting: the writing side, which repeats the reading side; refunds by the asynchronous backends; suspending and resuming by a manual refill; the configured tick length; a member's move between two groups; removal with unsuspend set to 0.
- IPv4 text and the platform's own inet_ntop and inet_pton.
- Inet6Api.InetPton: a decimal number of a quad is read at its full value; beyond the range of an int, as in ::4294967297.0.0.1, what sscanf does is undefined in C.
- BSON: code with scope, DBREF, appending whole documents or elements of others, and warnings about dots and dollars; UTF-8 recognition is a parameter; a double is its eight bytes; the conversion of an out-of-range growth size from double is taken to give a size below the one needed.
- LZ77: the asserts on null arguments.
- SHA-1: the stream operators and byte-at-a-time overloads, which call Input.
- Hash table: chains are sequences of elements, so `hte_next` itself is not modelled, and an element to be inserted or put in place is taken to have no successor; the cached hash value; HT_NEXT_RMV, HT_FOREACH_FN and HT_CLEAR; the hash is any function of the key.
- HashTable.Table.Insert: requires that growing cannot read past the list of primes and that there is or will be a bucket array, which the code takes for granted.
- HashTable.Table.Replace: requires the same.
- Template codec: the Lua stack and tables; a table's values are listed in the order of its template's entries; numbers outside the conforming ranges, a count that does not fit a short, and error codes for values of the wrong Lua type.
- ProtoParser.Parser.WriteMsg: says nothing about a value that does not conform.
- ProtoParser.WriteThenRead: the message is read from a buffer as long as it is; the 512 bytes of the server's own receive buffer are not part of the model.
- WebSocket: the handshake, the packet limit, an exhausted pool, and the fd tables of the IO thread.
- WebSocket.Request.Fetch: requires that the frame fits the scratch buffer; on a longer one the code reads past the buffer.
- WebSocket.Websocket.HandlePacket: requires the same.
- WebSocket.ReadAll: requires that no arrival comes to such a frame.
- WebSocket.Connection.OnRead: requires that the stream does not come to such a frame (the ending `Overrun`).
- Base64, fd tables, logging, the HTTP client, the configuration reader and the login check would only add easy members.
