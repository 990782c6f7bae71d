# Verified models of the concurrency cores of the course repository

This project models five pieces of code whose correctness rests on interleavings, pointers and
flags, and proves what they keep over every run:

- **The MiniGUI message queue.** One queue combines a circular buffer that replaces older messages
  of the same key, a linked list of notifications, a list of synchronous messages whose nodes live
  on the senders' stacks, a mask of expired timers served by a rotating cursor, and a flag word that
  summarises all of these; a semaphore tells the reader that there may be work.
- **POSIX threads on VxWorks.** A thread table with three counters, ids stamped with a cookie, joining
  and detaching, a key bitmap with per-thread data, and the destructor loop of an exiting thread.
- **A thread pool** that is shut down by posting one extra token for each worker.
- **The dirty rectangle of an LCD driver**, merged by producers and flushed by a worker thread.
- **The request/reply conversation** between MiniGUI clients and the server, in which messages and
  nested requests share the stream with replies.

Each piece comes in two forms. A specification on values says what one critical section does and
carries the theorems about every run, with threads as program counters and one step for each locked
section or semaphore operation. Beside it stand the classes and methods that work in place as the
C code does - arrays, linked nodes, bit words, loops - and whose contracts tie the new state to the
specification.

| file | what it holds |
|---|---|
| `Common`, `Bits`, `Circle` | optional values; testing, raising and clearing bits of a 32-bit word; scanning round a circle |
| `Messages` | messages, filters, and the test whether a message belongs to a window |
| `PostRing` | the posted messages: coalescing sequence and circular buffer |
| `NotifyList` | the notifications: singly linked list with head and tail |
| `SyncWalk`, `SyncMessages` | the synchronous messages: the walk that throws them away; the protocol and the list |
| `TimerSlots`, `TimerFairness` | the timer branch and its bounded waiting; the same in runs of the whole queue |
| `QueueState`, `QueueFlags`, `MsgQueue` | the whole queue on values, its flag word, and the structure itself |
| `PeekDelivery`, `QuitRequests` | what peeks deliver and in which order; what they report of requests to quit |
| `SyncDelivery` | the owner of a queue and its senders: peeks, messages in hand, and the nodes they name |
| `WakeUp` | the semaphore protocol between posters and the reader |
| `ThreadTable`, `Threads`, `ThreadJoin`, `ThreadReuse` | table, counters and ids; the same in place; joining in every interleaving; how long the table lasts |
| `ThreadKeys`, `KeyTable`, `KeyDestructors` | thread-specific data; its bitmap in place; the destructor loop |
| `ThreadPool`, `PoolRuns` | the task queue and the protocol of the pool; its whole runs |
| `DirtyRect` | merging damage and flushing it |
| `Wire`, `Framing`, `Endpoints` | encodings; the conversation; the loops of client and server |

Where the code falls short of its purpose, the model keeps the code as it is and a lemma says exactly
when the purpose is met:

- A peek that filters out the first sync message can deliver the desktop's time-out with that sender's
  node in it (`NodeRightExactly`, `PassSafeExactly`, `MisnamedIsPostedTwice`).
- Throwing away sync messages that are not at the front touches released nodes (`WalkIsSafeExactly`,
  `WalkIsCompleteExactly`).
- A message behind an unwanted one can come to the front without a wake-up (`StepKeepsExactly`).
- Emptying a queue with a pending quit makes the next one come more than once (`EmptyLeavesDepth`,
  `DepthIsPending`).
- The next index of the thread table is never brought back to 0, so the code creates at most 64 threads
  and never uses a slot twice; what is proved about ids of reused slots is about the table as it is
  meant to be (`InsideExactly`, `SixtyFifthStartsOutside`, `SlotsAreReused`).
- Reaping, detaching and joining: `ReapLeavesNoneExactly`, `DetachAgreesExactly`, `OnlyDetachDangles`
  with `DetachDangles`.
- A key deleted while its destructor is about to be called (`CallIsFair`, `NullIsCalled`), and the data
  of new threads (`NewThreadStartsNullExactly`).
- Submitting to the pool while it is destroyed (`DrainsExactly`, `LeftBehindExactly`,
  `LateSubmitIsLost`).
- A request whose caller waits for something else than its handler sends (`CompletesExactly`).

`dafny verify dfyconfig.toml` checks the whole project.

## Model

| member | source | states |
|---|---|---|
| Messages.KeepConcat | source/aple/lecture-5/minigui-message.c:1417-1568 | throwing away a window's messages is a filter: it acts on every part of a queue by itself, so order is kept |
| Messages.KeepMembers | source/aple/lecture-5/minigui-message.c:1417-1568 | a message survives, as often as it was pending, exactly when neither its window is the target nor its control's main window is |
| Messages.BelongsExactly | source/aple/lecture-5/minigui-internals.h:723-731 | a message belongs to a window if it is that window's or a valid control's of it; the null window also gets whatever is no control |
| Messages.WantedExactly | source/aple/lecture-5/minigui-message.c:721-724 | two zero bounds want everything, one zero bound nothing, else what lies between them |
| PostRing.SameKeyExactly | source/aple/lecture-5/minigui-message.c:420-465 | the message kinds that coalesce, by number, and which fields make the key of each |
| PostRing.ScansAgree | source/aple/lecture-5/minigui-message.c:419-465 | while keys are unique, update-last and update-first hit the same and only candidate |
| PostRing.PostReplacesKey | source/aple/lecture-5/minigui-message.c:419-476 | with unique keys, every pending message of the new one's key becomes the new one, else it goes behind all others; it is refused exactly when there is no such message and no room |
| PostRing.KeysStayUnique | source/aple/lecture-5/minigui-message.c:410-489 | after any sequence of queueing, peeks, throwing away and emptying, the buffer holds at most len-1 messages, at most one coalescing message of each key, and each pending message is the newest accepted of its key |
| PostRing.RemovalIsFromFront | source/aple/lecture-5/minigui-message.c:816-834 | both peeks remove the front message or nothing, by their filters |
| PostRing.Ring.ScanLast | source/aple/lecture-5/minigui-message.c:420-443 | the mouse-move scan over the wrapped positions finds the last pending message of the key, or none exactly when there is none |
| PostRing.Ring.ScanFirst | source/aple/lecture-5/minigui-message.c:445-464 | the scan for time-out, idle and caret messages finds the first one of the key, or none exactly when there is none |
| PostRing.Ring.Queue | source/aple/lecture-5/minigui-message.c:410-489 | a message replaces the pending one of its key with all its new fields, else goes to the back; it is refused, and nothing changes, exactly when no key matches and len-1 are pending |
| PostRing.Ring.Dequeue | source/aple/lecture-5/minigui-message.c:816-834 | removal takes the oldest message and leaves the others in order, across the wrap |
| PostRing.Ring.CloseGap | source/aple/lecture-5/minigui-message.c:1525-1544 | the in-place shift over the wrapped ring deletes exactly the one message and keeps the order of the others |
| PostRing.Ring.ThrowAway | source/aple/lecture-5/minigui-message.c:1515-1550 | the scan with its nested shifts ends, leaves exactly the filtered contents, and counts exactly what went |
| NotifyList.List.Append | source/aple/lecture-5/minigui-message.c:1216-1223 | a notification goes to the back; head, tail and links stay right |
| NotifyList.List.Prepend | source/aple/lecture-5/minigui-message.c:1175-1181 | a prior notification goes to the front |
| NotifyList.List.RemoveFirst | source/aple/lecture-5/minigui-message.c:794-811 | the removing peek takes the front, and clears the tail with the last node |
| NotifyList.List.Unlink | source/aple/lecture-5/minigui-message.c:1446-1458 | a node at any place is unlinked, the tail pointer repaired |
| NotifyList.List.ThrowAway | source/aple/lecture-5/minigui-message.c:1433-1472 | the unlinking walk leaves exactly the filtered list with head and tail right, and counts what went |
| SyncWalk.WalkIsSafeExactly | source/aple/lecture-5/minigui-message.c:1477-1509 | the walk over the synchronous messages never touches a node after releasing its sender if and only if the matching nodes are all at the front |
| SyncWalk.WalkIsCompleteExactly | source/aple/lecture-5/minigui-message.c:1477-1509 | it leaves a matching node reachable if and only if two neighbours match behind one that does not |
| SyncWalk.TailExactly | source/aple/lecture-5/minigui-message.c:1477-1509 | the tail pointer, which it does not repair, is right exactly unless the last node was unlinked behind a survivor |
| SyncWalk.WalkIsFilter | source/aple/lecture-5/minigui-message.c:1477-1509 | with the matching nodes at the front the walk is the filter and the tail stays right |
| SyncWalk.TraceExactly | source/aple/lecture-5/minigui-message.c:1482-1508 | the walk looks at every node and releases exactly the matching ones |
| SyncMessages.PostedAtMostOnce | source/aple/lecture-5/minigui-message.c:1396-1403 | in every run of sends, removing peeks, dispatches, emptying and wake-ups in which each dispatch is of a node taken out and not yet answered, a sender's semaphore is posted at most once, and linked nodes are exactly those of unanswered senders |
| SyncMessages.SoundExactly | source/aple/lecture-5/minigui-message.c:1396-1403 | that condition is necessary too: with any other dispatch some sender is posted twice or released while its node is linked |
| SyncMessages.AnswerIsFinal | source/aple/lecture-5/minigui-message.c:1595-1621 | under the same condition, once posted the node is out of the queue for good and the return value never changes; it is what the sender returns |
| SyncMessages.DispatchedAnswer | source/aple/lecture-5/minigui-message.c:1388-1402 | whoever is answered by a dispatch takes home the value of that very dispatch, in every later state |
| SyncMessages.CanceledAnswer | source/aple/lecture-5/minigui-message.c:1595-1621 | whoever was linked when the queue was emptied takes home the cancelled value |
| SyncMessages.ReturnsOnce | source/aple/lecture-5/minigui-message.c:1752-1765 | a sender wakes up at most once and is gone from then on |
| SyncMessages.AnswerComesFrom | source/aple/lecture-5/minigui-message.c:1388-1402 | there is no third way to be answered |
| SyncMessages.ReleasedExactly | source/aple/lecture-5/minigui-message.c:1719-1755 | when the list is empty and the owner holds no undispatched node, a sender was released, by exactly one post, if and only if its message was not ignored |
| SyncMessages.IgnoredByDispatch | source/aple/lecture-5/minigui-message.c:1369-1373 | a message is ignored only by its own dispatch to a window without a procedure, which returns before the post |
| SyncMessages.SyncList.PushBack | source/aple/lecture-5/minigui-message.c:1739-1745 | linking a stack node behind a live tail, or as the only one although the old tail dangles |
| SyncMessages.SyncQueue.Send | source/aple/lecture-5/minigui-message.c:1737-1749 | the new sender is last in the chain; the tail pointer is the last reachable node |
| SyncMessages.SyncQueue.PeekRemove | source/aple/lecture-5/minigui-message.c:775-791 | the first sender's node becomes unreachable before anything is answered |
| SyncMessages.SyncQueue.Dispatch | source/aple/lecture-5/minigui-message.c:1396-1403 | whatever live node the message carries gets exactly this return value and one more post; the structure stays valid if the node was taken out and not yet answered |
| SyncMessages.SyncQueue.Wake | source/aple/lecture-5/minigui-message.c:1752-1765 | the sender takes home the value stored in its node, and the node dies |
| SyncMessages.SyncQueue.CancelAll | source/aple/lecture-5/minigui-message.c:1595-1621 | emptying answers every linked sender with the cancelled value, each unlinked before it is released |
| SyncMessages.SyncQueue.ThrowAway | source/aple/lecture-5/minigui-message.c:1477-1509 | for every list the survivors of the walk are what stays reachable, and every matching message is counted; under the exact condition above it cancels precisely the matching senders and the structure stays valid |
| TimerSlots.FindExpired | source/aple/lecture-5/minigui-message.c:886-898 | the scan ends with the expired slot nearest to the cursor; "no slot found" is reached exactly when the mask is zero |
| TimerSlots.BoundedWaiting | source/aple/lecture-5/minigui-message.c:882-937 | a slot that stays expired is served within ((slot - cursor) mod N) + 1 runs of the branch, whatever the other timers do |
| TimerSlots.BoundIsTight | source/aple/lecture-5/minigui-message.c:882-937 | when all slots keep re-expiring it is served in exactly that run and not before |
| TimerFairness.CursorMovesExactly | source/aple/lecture-5/minigui-message.c:900-901 | over all operations of the queue the cursor moves in the timer stage and nowhere else, and there by one slot |
| TimerFairness.BoundedOnRuns | source/aple/lecture-5/minigui-message.c:882-937 | in every run of the whole queue, while a slot stays expired and unserved no more timer passes go by than the cursor has steps to it |
| QueueFlags.RaiseBit | source/aple/lecture-5/minigui-internals.h:215-224 | setting a QS bit of dwState inserts that flag and no other |
| QueueFlags.ClearBit | source/aple/lecture-5/minigui-internals.h:215-224 | clearing a QS bit removes that flag and no other |
| QueueState.FlagsNeverHideWork | source/aple/lecture-5/minigui-message.c:754-939 | in every reachable queue a clear flag means an empty container, the quit flag has its depth, and only occupied timer slots are marked |
| QueueState.PeekKeepsInv | source/aple/lecture-5/minigui-message.c:754-939 | a peek with any filter keeps that, and an unfiltered peek that finds nothing leaves no work behind |
| QueueState.PeekTakesFirst | source/aple/lecture-5/minigui-message.c:774-939 | with any filter a peek delivers the first wanted of the front sync message, notification and posted message, in this order, and takes that one only (none without removing); only when none is wanted does it make a repaint, time-out or timer message, and then no container changes |
| PeekDelivery.MadeExactly | source/aple/lecture-5/minigui-message.c:839-937 | when no container has a wanted message in front, and for every filter: a repaint, which stays pending; else the desktop's time-out, which only a removing peek ends; else the nearest expired timer, whose mark goes and whose procedure is called or message delivered with its window, id and ticks; else nothing. A container that delivers leaves timers, repaint and time-out alone |
| PeekDelivery.DeliveredInOrder | source/aple/lecture-5/minigui-message.c:774-834 | consecutive unfiltered removing peeks deliver all sync messages, then all notifications, then all posted messages, each kind in its own order, and nothing in between |
| PeekDelivery.NewMessageComes | source/aple/lecture-5/minigui-message.c:1152-1234 | in that order a new message comes behind its kind, and a prior notification before it; a refused one changes nothing |
| PeekDelivery.SendersTouchTheirOwn | source/aple/lecture-5/minigui-message.c:1152-1335 | every sender touches its own container and flag and nothing of another kind; one round of the drain takes the first sync message, or clears the flag of an empty list |
| PeekDelivery.ThrowAwayTouches | source/aple/lecture-5/minigui-message.c:1554-1563 | throwing away changes containers and expired timers only, and of those timers exactly the window's |
| PeekDelivery.PeekPostExactly | source/aple/lecture-5/minigui-message.c:1097-1129 | PeekPostMessage sees the front posted message only, if its bounds are both zero or enclose it; only removing changes anything, and takes that message only |
| PeekDelivery.EmptyIsIdle | source/aple/lecture-5/minigui-message.c:1587-1643 | an emptied queue has nothing to deliver and keeps its timers' slots |
| PeekDelivery.FieldLeftExactly | source/aple/lecture-5/minigui-message.c:748-928 | a pass that goes round again leaves the unwanted first sender in pSyncMsg, or what was there, unless a notification, posted message or repaint reset it |
| PeekDelivery.SendersMakeWork | source/aple/lecture-5/minigui-message.c:1278-1335 | after every sender a peek without a filter comes back with something |
| QueueState.NodeRightExactly | source/aple/lecture-5/minigui-message.c:778-779 | the delivered message's pSyncMsg names the sender of the sync message it is, and nobody else, if and only if the pass does not end in the desktop time-out with nothing between an unwanted first sync message (or a node left from the pass before) and it |
| QueueState.TestsAgree | source/aple/lecture-5/minigui-message.c:557-598 | HavePendingMessageEx with the desktop timer and WaitMessage hold exactly when a container, quit, paint or timer has work; without the desktop timer they differ on exactly that |
| QueueState.PendingExactly | source/aple/lecture-5/minigui-message.c:1017-1053 | the tests hold exactly when an unfiltered peek would come back with something, or for a paint flag with nothing to repaint |
| QuitRequests.QuitPeekExactly | source/aple/lecture-5/minigui-message.c:756-772 | with a request pending every peek reports MSG_QUIT, whatever else is there; without removing nothing changes, removing takes one off the depth and ends the request exactly when that was the last one |
| QuitRequests.QuitsAreDepth | source/aple/lecture-5/minigui-message.c:756-772 | any number of consecutive removing peeks reports MSG_QUIT as often as the depth says, and then no more |
| QuitRequests.OnePeekPerQuit | source/aple/lecture-5/minigui-message.c:1322-1327 | a new request is reported exactly once, however often the owner peeks, if and only if no depth was left over |
| QuitRequests.EmptyLeavesDepth | source/aple/lecture-5/minigui-message.c:1636-1640 | for every queue with an unreported quit: after emptying it the next request is reported as many times more as the depth was |
| QueueState.DepthIsPending | source/aple/lecture-5/minigui-message.c:1322-1327 | in every run that never does that, the depth is one for a pending request and zero otherwise |
| MsgQueue.Queue.constructor | source/aple/lecture-5/minigui-message.c:312-377 | a new queue is the empty one on values, with one buffer slot kept free |
| MsgQueue.Queue.PeekTimer | source/aple/lecture-5/minigui-message.c:881-937 | the timer stage serves the nearest expired slot, advances the cursor by one, and clears the mask bit of an occupied slot |
| MsgQueue.Queue.PeekPosted | source/aple/lecture-5/minigui-message.c:816-834 | the posted stage delivers the front if wanted, and clears the flag only when the buffer is empty |
| MsgQueue.Queue.PeekNotify | source/aple/lecture-5/minigui-message.c:794-814 | the same for notifications, before posted messages |
| MsgQueue.Queue.PeekSync | source/aple/lecture-5/minigui-message.c:774-792 | the same for synchronous messages, first of the three; the message names the first sender's node even if it is not wanted |
| MsgQueue.Queue.PeekPass | source/aple/lecture-5/minigui-message.c:754-939 | one pass of the peek on the real structure does to all containers, flags, depth and timers, and to the message's pSyncMsg field, what the pass on values does |
| MsgQueue.Queue.QueueMsg | source/aple/lecture-5/minigui-message.c:410-489 | queueing raises the flag exactly when the message was accepted, stamped with the time |
| MsgQueue.Queue.SendNotify | source/aple/lecture-5/minigui-message.c:1194-1234 | the notification is last and its flag is up |
| MsgQueue.Queue.SendPriorNotify | source/aple/lecture-5/minigui-message.c:1152-1192 | the notification is first and its flag is up |
| MsgQueue.Queue.QueueSync | source/aple/lecture-5/minigui-message.c:1737-1749 | the sender is last and the flag is up |
| MsgQueue.Queue.PostQuit | source/aple/lecture-5/minigui-message.c:1308-1335 | a second request before delivery changes nothing |
| MsgQueue.Queue.PostPaint | source/aple/lecture-5/minigui-message.c:1286-1289 | posting MSG_PAINT raises a flag and queues nothing |
| MsgQueue.Queue.PeekPost | source/aple/lecture-5/minigui-message.c:1085-1130 | only the front posted message is looked at, with its own filter, and no flag is cleared |
| MsgQueue.Queue.DrainSync | source/aple/lecture-5/minigui-message.c:1719-1733 | one round of a sender's drain of its own queue takes the first sender, and hands out its node, exactly if the flag is up and there is one; else it clears the flag |
| MsgQueue.Queue.ThrowAway | source/aple/lecture-5/minigui-message.c:1417-1568 | notifications, posted messages and expired timers lose exactly the window's entries, the sync list keeps the survivors of its walk, and the count is exact; when the matching sync messages come first the whole queue is as it should be |
| MsgQueue.Queue.Empty | source/aple/lecture-5/minigui-message.c:1587-1643 | everything is empty afterwards and every sender released, but the depth stays |
| MsgQueue.Queue.HavePending | source/aple/lecture-5/minigui-message.c:557-598 | the test on the real structure, up to the idle handler |
| MsgQueue.Queue.WaitTest | source/aple/lecture-5/minigui-message.c:1017-1053 | the test of WaitMessage on the real structure |
| SyncDelivery.PassSafeExactly | source/aple/lecture-5/minigui-message.c:774-879 | with nested peeks that go round several times, and any messages in hand: a pass leaves every message in hand naming a sender still to be answered, each once, if and only if it does not misname one |
| SyncDelivery.HandRightExactly | source/aple/lecture-5/minigui-message.c:774-879 | over every run of the owner and its senders that holds in all states if and only if no pass misnames a node |
| SyncDelivery.SendersReleasedOnce | source/aple/lecture-5/minigui-message.c:1396-1403 | then every sender is released by exactly one post and only when its node is out of the list |
| SyncDelivery.AnswerIsFinal | source/aple/lecture-5/minigui-message.c:1396-1403 | and its return value never changes afterwards |
| SyncDelivery.DispatchedAnswer | source/aple/lecture-5/minigui-message.c:1388-1402 | the sender named by a dispatched message takes home the value of that very dispatch |
| SyncDelivery.MisnamedIsPostedTwice | source/aple/lecture-5/minigui-message.c:863-879 | from every state where a pass misnames the first sender: dispatching the desktop time-out releases that sender while its node is still first in the list, and the owner's next drain posts it again |
| SyncDelivery.FilteredPeekMisnames | source/aple/lecture-5/minigui-message.c:863-879 | a pending desktop time-out, a sender's message and a removing peek that filters it out are enough for that |
| SyncDelivery.DeskTimerAlone | source/aple/lecture-5/minigui-message.c:863-879 | and such a queue is one step from an empty one |
| WakeUp.NoLostWakeUp | source/aple/lecture-5/minigui-internals.h:341-349 | in every interleaving of any number of posters with a reader with any filters, as long as no throwing-away exposes a message to the sleeping reader: if the reader found nothing and a peek would find something now, the semaphore is positive or a poster is still under way; semaphore plus pending posts never exceed the posters |
| WakeUp.SemIsPostsLessTakes | source/aple/lecture-5/minigui-internals.h:341-349 | in every run the semaphore is what was posted less what was taken |
| WakeUp.StepKeepsExactly | source/aple/lecture-5/minigui-message.c:939-957 | a step keeps that if and only if it is not such a throwing-away with nobody under way |
| WakeUp.DiscardReadiesExactly | source/aple/lecture-5/minigui-message.c:1417-1568 | throwing away makes a queue ready for a filter exactly when the first remaining message of some container passes it |
| WakeUp.LoserSleeps | source/aple/lecture-5/minigui-message.c:939-957 | after such a step a wanted message is there, but the semaphore is not and nobody is about to post it |
| WakeUp.UnfilteredNeverLost | source/aple/lecture-5/minigui-message.c:997-1083 | a reader that never filters is never lost, whatever is thrown away |
| WakeUp.SleeperIsWoken | source/aple/lecture-5/minigui-message.c:939-957 | a reader asleep while a peek would find something is woken by the next one or two steps of a poster |
| WakeUp.PollingReaderGoesOn | source/aple/lecture-5/minigui-message.c:942-957 | a reader with an idle handler takes the semaphore or goes round, and looks again |
| WakeUp.ChangeMakesWork | source/aple/lecture-5/minigui-internals.h:341-349 | after a poster's critical section there is work, and the poster is on its way to the semaphore |
| ThreadTable.ReapAgrees | source/aple/lecture-5/minigui-vxworks_pthread.c:205-260 | reaping keeps the three counters right, also when it has to pass over threads whose task status it cannot read |
| ThreadTable.ReapLeavesNoneExactly | source/aple/lecture-5/minigui-vxworks_pthread.c:217-258 | no exited thread is left if and only if the status of all could be read; no other slot is touched |
| ThreadTable.CreateAgrees | source/aple/lecture-5/minigui-vxworks_pthread.c:419-547 | so does creation, which fails exactly when no slot is free after reaping |
| ThreadTable.NewThreadIs | source/aple/lecture-5/minigui-vxworks_pthread.c:490-542 | the new thread is joinable or detached as asked for, is found by its new id, and got a slot that was empty or reaped; nothing else in the table changes but by reaping |
| ThreadTable.SearchReturnsExactly | source/aple/lecture-5/minigui-vxworks_pthread.c:424-437 | the search for a free slot comes back to its start, which is its "no slots left" exit, if and only if it started inside the table |
| ThreadTable.ExitAgrees | source/aple/lecture-5/minigui-vxworks_pthread.c:643-670 | exiting counts the thread as exited or as waiting to be joined |
| ThreadTable.ExitIs | source/aple/lecture-5/minigui-vxworks_pthread.c:643-660 | an exiting thread leaves its value and signals its joiner; a joinable one is still found by its id, a detached one no more |
| ThreadTable.FinishJoinAgrees | source/aple/lecture-5/minigui-vxworks_pthread.c:758-774 | the end of a join moves it from one counter to the other; its slot is free afterwards exactly if its task status could be read, and holds a retired thread otherwise |
| ThreadTable.DetachAgreesExactly | source/aple/lecture-5/minigui-vxworks_pthread.c:788-817 | detaching keeps the counters right if and only if the thread has not exited yet |
| ThreadTable.DetachIs | source/aple/lecture-5/minigui-vxworks_pthread.c:796-816 | detaching reports an unknown id and a detached thread; any other thread is detached and its joiner signalled |
| ThreadTable.SameIdExactly | source/aple/lecture-5/minigui-vxworks_pthread.c:97-102 | two creations get the same id exactly when they share the slot and a whole number of cookie cycles lies between them |
| ThreadTable.CreateIssues | source/aple/lecture-5/minigui-vxworks_pthread.c:493-504 | every control block carries the id of its creation number and slot, through every creation |
| ThreadTable.LookupFindsOwner | source/aple/lecture-5/minigui-vxworks_pthread.c:144-163 | the id of a thread not yet retired resolves to that thread |
| ThreadTable.StaleIdsNeverResolve | source/aple/lecture-5/minigui-vxworks_pthread.c:144-163 | an id resolves only to a creation a whole number of cookie cycles away; within one cycle the id of a reaped thread never resolves to its slot's new occupant |
| Threads.Threads.constructor | source/aple/lecture-5/minigui-vxworks_pthread.c:77-103 | an empty table agrees with its counters |
| Threads.Threads.Reap | source/aple/lecture-5/minigui-vxworks_pthread.c:205-260 | stopping as soon as the counter is zero does what going through the whole table would do, and touches no other slot; only the counter of exited threads has to be right for it |
| Threads.Threads.FindFree | source/aple/lecture-5/minigui-vxworks_pthread.c:424-437 | the search once round finds the first free slot from the next index, or none exactly when the table is full |
| Threads.Threads.Create | source/aple/lecture-5/minigui-vxworks_pthread.c:419-547 | creation in place: reap, slot, cookie, counters |
| Threads.Threads.Lookup | source/aple/lecture-5/minigui-vxworks_pthread.c:144-163 | the lookup in place |
| Threads.Threads.Exit | source/aple/lecture-5/minigui-vxworks_pthread.c:643-660 | the locked part of the exit in place |
| Threads.Threads.FinishJoin | source/aple/lecture-5/minigui-vxworks_pthread.c:758-774 | the end of a join in place hands back the stored value |
| Threads.Threads.Detach | source/aple/lecture-5/minigui-vxworks_pthread.c:788-817 | detaching in place, for a thread in any state |
| ThreadJoin.JoinsAlwaysRight | source/aple/lecture-5/minigui-vxworks_pthread.c:692-782 | in every interleaving of creations, exits, detaches and joins, with at most one joiner for a thread, both for the code's table and for one whose next index wraps: the counters match the table, and a join that succeeded did so after the thread's exit with exactly the value given to it |
| ThreadJoin.JoinStartReturns | source/aple/lecture-5/minigui-vxworks_pthread.c:704-774 | from every state: a join returns ESRCH exactly if nobody owns the id, EDEADLK to the owner, EINVAL for a detached thread; for an exited one it returns 0 with the value given to its exit and retires it, its slot being empty exactly if its status can be read; for a running one it begins to wait |
| ThreadJoin.JoinCheckReturns | source/aple/lecture-5/minigui-vxworks_pthread.c:723-774 | a joiner that wakes up waits on for a running thread, has the value of an exited one, which is retired, and gets EINVAL for a detached one; no other joiner notices |
| ThreadJoin.JoinTakeIs | source/aple/lecture-5/minigui-vxworks_pthread.c:726-728 | waking up takes the joiner's semaphore and changes nothing else |
| ThreadJoin.JoinedIdIsDead | source/aple/lecture-5/minigui-vxworks_pthread.c:758-774 | within one cookie cycle no lookup of a joined thread's id resolves again |
| ThreadJoin.JoinerNotForgotten | source/aple/lecture-5/minigui-vxworks_pthread.c:656-660 | a joiner whose thread is past its exit can go on |
| ThreadJoin.OnlyDetachDangles | source/aple/lecture-5/minigui-vxworks_pthread.c:723-737 | the control block of an undetached thread cannot disappear under its joiner |
| ThreadJoin.DetachedOnPurpose | source/aple/lecture-5/minigui-vxworks_pthread.c:796-809 | only a thread that somebody detached by its id counts as detached there |
| ThreadJoin.DetachDangles | source/aple/lecture-5/minigui-vxworks_pthread.c:804-812 | but detaching a thread while a joiner waits, its exit and one creation that reaps it leave that joiner with a block that is gone |
| ThreadReuse.InsideExactly | source/aple/lecture-5/minigui-vxworks_pthread.c:493-496 | in every run of the code the next index is the number of creations, every slot holds at most the thread of its own number, and the next creation starts its search inside the table if and only if there were fewer than 64 |
| ThreadReuse.SixtyFifthStartsOutside | source/aple/lecture-5/minigui-vxworks_pthread.c:425-425 | after 64 threads were created, exited and joined the table is empty, and the 65th creation reads behind its end |
| ThreadReuse.SlotsAreReused | source/aple/lecture-5/minigui-vxworks_pthread.c:493-504 | with a next index that wraps any number of threads can come and go, and thread n gets the slot of the joined thread n - 64: the results about stale ids are about something there |
| ThreadKeys.CreateIssuesLeast | source/aple/lecture-5/minigui-vxworks_pthread.c:1253-1306 | a key is issued exactly when one is free; it is the least free key, the only new one, and reads NULL in every thread while all other values stay |
| ThreadKeys.DeleteFreesOne | source/aple/lecture-5/minigui-vxworks_pthread.c:1312-1326 | deleting frees that key only and hides only its values |
| ThreadKeys.StoreIsRead | source/aple/lecture-5/minigui-vxworks_pthread.c:1332-1346 | storing is refused exactly for a free key, and then nothing changes; else the thread reads the value there, and no other thread or key notices |
| ThreadKeys.ReadComesFromLastPut | source/aple/lecture-5/minigui-vxworks_pthread.c:1332-1369 | in every run a non-NULL value read was put there by the thread itself since the key was last created (or was old memory of a new thread's block): never a value from before a delete |
| ThreadKeys.LastPutIsRead | source/aple/lecture-5/minigui-vxworks_pthread.c:1332-1369 | conversely the last value stored in the key's present life is what is read |
| ThreadKeys.NewThreadStartsNullExactly | source/aple/lecture-5/minigui-vxworks_pthread.c:518-518 | a new thread reads NULL for every key if and only if the allocated keys beyond the cleared bytes find NULL in the old memory |
| KeyTable.SomeBit | source/aple/lecture-5/minigui-vxworks_pthread.c:1261-1262 | a bitmap word is non-zero exactly when it has a free key |
| KeyTable.FreeBitsAfter | source/aple/lecture-5/minigui-vxworks_pthread.c:1270-1273 | clearing or setting one bit of one word changes exactly one key |
| KeyTable.LsbitIndex | source/aple/lecture-5/minigui-vxworks_pthread.c:1238-1245 | the loop returns the least set bit, -1 only for zero |
| KeyTable.KeyTable.constructor | source/aple/lecture-5/minigui-vxworks_pthread.c:310-313 | all keys start free |
| KeyTable.KeyTable.CreateKey | source/aple/lecture-5/minigui-vxworks_pthread.c:1253-1306 | creation on the words, the destructor table and all threads' data |
| KeyTable.KeyTable.DeleteKey | source/aple/lecture-5/minigui-vxworks_pthread.c:1312-1326 | deletion on the words |
| KeyTable.KeyTable.SetSpecific | source/aple/lecture-5/minigui-vxworks_pthread.c:1332-1346 | storing is refused exactly for a free key, and changes one value of one thread |
| KeyTable.KeyTable.GetSpecific | source/aple/lecture-5/minigui-vxworks_pthread.c:1352-1369 | reading a free key gives NULL |
| KeyDestructors.OthersKeepQuiet | source/aple/lecture-5/minigui-vxworks_pthread.c:1282-1291 | creating and deleting keys in other threads never makes a value due for a destructor |
| KeyDestructors.CallIsFair | source/aple/lecture-5/minigui-vxworks_pthread.c:612-629 | for every world, with other threads acting between any two accesses: a destructor is called with its slot clear, and it is the owner's destructor with the owner's value while the key is still the owner's if and only if nobody deletes or creates the key between the first test and the call |
| KeyDestructors.NullIsCalled | source/aple/lecture-5/minigui-vxworks_pthread.c:612-629 | the schedule in which a key is deleted and created anew after the tests calls a null destructor with NULL |
| KeyDestructors.LookAtKey | source/aple/lecture-5/minigui-vxworks_pthread.c:612-632 | the body of the loop, access by access |
| KeyDestructors.RunDestructors | source/aple/lecture-5/minigui-vxworks_pthread.c:597-641 | for every world: at most ITERATIONS+1 passes, every call as above, an earlier stop leaves no value due, and a destructor that stores its value again forces exactly ITERATIONS+1 passes |
| KeyDestructors.StoringAgainRestores | source/aple/lecture-5/minigui-vxworks_pthread.c:597-641 | such a destructor exists for every key, so the bound is attained |
| ThreadPool.TaskQueue.Enqueue | source/aple/homework/po/lecture-4/exercise_1/thread/threadpool.c:27-36 | a task goes to the back although the tail dangles after the queue ran empty |
| ThreadPool.TaskQueue.Dequeue | source/aple/homework/po/lecture-4/exercise_1/thread/threadpool.c:39-47 | the front task, or none exactly for an empty queue |
| PoolRuns.AlwaysConserved | source/aple/homework/po/lecture-4/exercise_1/thread/threadpool.c:50-109 | in every run semaphore + workers with a token + submitters before their post = queue + shutdown posts - workers that found nothing; every task is in exactly one place; no worker leaves before a shutdown post |
| PoolRuns.AlwaysDrains | source/aple/homework/po/lecture-4/exercise_1/thread/threadpool.c:81-97 | with all submits before pool_destroy, a worker finds the queue empty only when it stays empty |
| PoolRuns.TakenInOrder | source/aple/homework/po/lecture-4/exercise_1/thread/threadpool.c:27-47 | in every run the task that a worker takes is the first submitted one that has not been taken |
| PoolRuns.DrainsExactly | source/aple/homework/po/lecture-4/exercise_1/thread/threadpool.c:65-73 | with all submits before pool_destroy and all workers joined: every task ran exactly once and the total is the sum of all results, exactly unless there is no worker at all |
| PoolRuns.LeftBehindExactly | source/aple/homework/po/lecture-4/exercise_1/thread/threadpool.c:50-109 | in any order of submits and pool_destroy: when all workers have gone, the tasks left are as many as the tokens left and the submitters still to post, and every task has run if and only if there are none of either |
| PoolRuns.ShutdownNeverStuck | source/aple/homework/po/lecture-4/exercise_1/thread/threadpool.c:86-108 | once the tokens are posted, a pool with a live worker has an enabled worker step |
| PoolRuns.ShutdownEnds | source/aple/homework/po/lecture-4/exercise_1/thread/threadpool.c:86-108 | no sequence of worker steps is longer than the measure of the state it starts from |
| PoolRuns.SumOfPermutation | source/aple/homework/po/lecture-4/exercise_1/thread/threadpool.c:100-105 | the total does not depend on the order in which the results come in |
| PoolRuns.LateSubmitIsLost | source/aple/homework/po/lecture-4/exercise_1/thread/threadpool.c:50-73 | a submit after pool_destroy can leave its task in the queue for ever |
| DirtyRect.MergeCovers | source/aple/lecture-5/minigui-commlcd.c:185-194 | the merged box covers the old box and every pixel of every area, from its corner for its width and height |
| DirtyRect.MergeIsLeast | source/aple/lecture-5/minigui-commlcd.c:185-194 | and lies inside every rectangle that holds the old box and the edges of the areas |
| DirtyRect.UpdateCovers | source/aple/lecture-5/minigui-commlcd.c:178-207 | no on-screen pixel that was dirty or lies in a submitted area is missing after an update |
| DirtyRect.UpdateIsLeast | source/aple/lecture-5/minigui-commlcd.c:178-207 | and no pixel becomes dirty that is off the screen or outside a rectangle holding the old damage and the areas |
| DirtyRect.Updater.UpdateRects | source/aple/lecture-5/minigui-commlcd.c:94-118 | the update in place; dirty holds exactly when the box is non-empty, and the box stays on the screen |
| DirtyRect.Updater.SyncUpdate | source/aple/lecture-5/minigui-commlcd.c:120-130 | the synchronous flush hands over the whole box exactly when there is damage |
| DirtyRect.Updater.WorkerFlush | source/aple/lecture-5/minigui-commlcd.c:161-168 | so does the worker, which goes by the flag instead of the box |
| DirtyRect.NoDamageLost | source/aple/lecture-5/minigui-commlcd.c:132-207 | in every interleaving each on-screen pixel of every submitted area is in the box or was flushed since, and while a successful request is unflushed the semaphore is positive or the worker awake |
| DirtyRect.WorkerGoesBack | source/aple/lecture-5/minigui-commlcd.c:156-173 | after its critical section nothing is dirty, and the worker goes back to the semaphore |
| DirtyRect.EveryRequestWakesOnce | source/aple/lecture-5/minigui-commlcd.c:132-176 | a request succeeds and posts exactly when there is damage; in every run each post wakes the worker once or is still to do so; every submitted area is on record |
| Wire.RequestRoundTrip | source/aple/lecture-4/minigui-server.c:967-1022 | what the server takes off the stream is the request's id and its data followed by the extra data, and it stops right behind them, whatever follows |
| Wire.HeadRoundTrip | source/aple/lecture-4/minigui-client.c:264-272 | the three integers in front of a request are its id, the length of its data and that of its extra data, in this order |
| Wire.NoEarlyRequest | source/aple/lecture-4/minigui-server.c:967-1022 | no proper prefix of a request is taken for a whole one |
| Wire.MsgRoundTrip | source/aple/lecture-4/minigui-client.c:297-303 | a message record, with its pSyncMsg member, is read as it was written |
| Framing.AlwaysFramed | source/aple/lecture-4/minigui-client.c:257-369 | in every interleaving of requests, nested IAMLIVE requests, server messages for any valid window, handling and reading, both streams stay on frame boundaries and at most one reply is under way, that of the waiting client |
| Framing.BothGetTheirs | source/aple/lecture-4/minigui-client.c:294-369 | the server gets every request as sent, the client the messages in order and the replies to its own requests in order; empty streams mean nothing is missing |
| Framing.HistoryIsRun | source/aple/lecture-4/minigui-client.c:257-369 | what counts as posted and sent there is what the run's steps posted and submitted, in their order |
| Framing.AnswersExactly | source/aple/lecture-4/minigui-server.c:161-215 | the results read are precisely the handlers' replies, one for each request that has one, in request order |
| Framing.NeverStuck | source/aple/lecture-4/minigui-client.c:297-312 | a waiting client always has a request to be served or something to read |
| Framing.WorkShrinks | source/aple/lecture-4/minigui-client.c:297-312 | every step but a new request or message brings the end of the wait nearer |
| Framing.CompletesExactly | source/aple/lecture-4/minigui-client.c:288-369 | an exchange leaves nothing unread and nothing missing if and only if the caller waits for exactly the reply length that the handler sends |
| Endpoints.ProcessAllIs | source/aple/lecture-4/minigui-client.c:157-197 | handling messages does each one's action in order and writes one whole IAMLIVE request for each wake-up |
| Endpoints.ProcessSorts | source/aple/lecture-4/minigui-client.c:176-197 | of the messages handled, wake-ups are answered (one IAMLIVE request each), updates of own windows repaint, those for the null window go to the desktop, the other ones for own windows go to them, and exactly those for foreign windows go nowhere; each kind keeps its order and every message is one of these |
| Endpoints.ProcessIsRead | source/aple/lecture-4/minigui-client.c:176-197 | handling a message writes what the protocol's read step writes |
| Endpoints.WaitingSeesReply | source/aple/lecture-4/minigui-client.c:294-312 | in every run a waiting client whose request was served finds ordinary messages, then its reply with the length it wants |
| Endpoints.KeepsPace | source/aple/lecture-4/minigui-client.c:157-174 | over any series of checks the client writes whole IAMLIVE requests only: idle checks at most one in more than 100 ticks, and after every check the latest is at most 100 ticks old |
| Endpoints.BeatArrives | source/aple/lecture-4/minigui-server.c:603-611 | what the server records as the client's last sign of life is the tick of the latest request |
| Endpoints.Client.ProcessSocketMessage | source/aple/lecture-4/minigui-client.c:176-197 | the message goes to the one place where a message with its number and window belongs, and to no other |
| Endpoints.Client.AwaitReply | source/aple/lecture-4/minigui-client.c:297-312 | the read loop ends at the reply's mark with every earlier message handled in order |
| Endpoints.Client.Request | source/aple/lecture-4/minigui-client.c:257-369 | the caller gets the body of its own reply, every message before it went where it belongs, and the read position is right behind the reply |
| Endpoints.Server.HandleRequest | source/aple/lecture-4/minigui-server.c:955-1054 | exactly one request is consumed, and its handler's reply, if any, is all that is written |
| Endpoints.Server.SendReply | source/aple/lecture-4/minigui-server.c:161-215 | a reply is the mark followed by the body |

## Left out

- QueueState.PendingExactly: states one pass of the peek; that the surrounding loop ends is not claimed, since it need not. Passes of one peek, nested peeks and the pSyncMsg field carried between them are in `SyncDelivery`; timer callbacks and the idle handler are any operations between two passes.
- SyncDelivery.HandRightExactly: messages that were peeked without removing them are not dispatched, a removed one is dispatched once, and a window's messages are thrown away with its sync messages at the front.
- MsgQueue.Queue.Empty: taken as one atomic step of the owning thread, although the code takes no lock.
- WakeUp.NoLostWakeUp: a poster that runs on the reader's own thread posts nothing and is a change of the reader's own. The semaphore is taken to be a true counting semaphore.
- ThreadTable.ReapAgrees: which task statuses can be read is a parameter of each reaping; the wait for a task that is not yet dead is not modelled (the code never reads the status again, so it would not end).
- ThreadTable.CreateAgrees: does not model a failing `taskInit` (`source/aple/lecture-5/minigui-vxworks_pthread.c:535-540`), which leaves the slot occupied and uncounted, nor the stack and attributes; the next index is taken to be read under the lock, and a search from outside the table, whose first read is undefined, gets no result.
- Threads.Threads.Create: needs the next index inside the table, as does FindFree (see `ThreadReuse.InsideExactly`).
- ThreadTable.SameIdExactly: `pthread_t` is taken to have 32 bits.
- ThreadJoin.JoinsAlwaysRight: a run goes no further than the first creation that would read outside the table; detaching a thread that is past its exit is excluded (see `DetachAgreesExactly`), a joiner takes no step once its control block is gone, and cancellation of joiners is left out.
- ThreadKeys.ReadComesFromLastPut: pthread_setspecific and pthread_getspecific take no lock; each is one step here, so a key deleted or created between their test of the bitmap and their access to the value is not modelled. Keys are in range and `PTHREAD_KEYS_MAX`, which the visible headers do not give, is any multiple of 32; pointers have four bytes.
- KeyDestructors.RunDestructors: `PTHREAD_DESTRUCTOR_ITERATIONS` is a parameter; a call of a null destructor is recorded and the run goes on, where the code would crash; cleanup handlers, which run before, are left out as an ordinary stack.
- PoolRuns.DrainsExactly: results are exact reals, where the code adds floats.
- DirtyRect.NoDamageLost: `GetBoundRect` and `IntersectRect` are taken to be the usual operations on half-open rectangles and coordinates to be unbounded; cancelling the worker is left out.
- Framing.AlwaysFramed: a request is written, and one is handled, in one step; callers wait for exactly what the handlers reply (`CompletesExactly` says that this is necessary). File descriptors passed along, request flag bits and broken connections are left out; the value of `REQID_IAMLIVE`, which is not visible, is read off its place in the table of handlers.
- Endpoints.KeepsPace: ticks are unbounded numbers, so the wrap-around of the tick counter is not modelled.
- Wire.RequestRoundTrip: a failing allocation of the server's buffer is left out; lengths are those of a 64-bit `size_t`.
- Wire.MsgRoundTrip: each field of a message takes eight bytes, without the padding of the C structure.
- Endpoints.Client.Request: the bytes that the server writes during the call are given beforehand as the unread part of the stream; the interleaving itself is in `Framing`.
- The number of timer slots (`DEF_NR_TIMERS` is not visible) is the length of the mask; the code that lets timers expire, and the desktop timer, may set flags at any time.
- The search for a window that needs repainting, the translation of mouse messages for a capturing window, and the resetting of idle counters: the outcome of the search is a parameter of the peek.
- The count that a broadcast returns: queueing overwrites the `time` field that serves as the counter.
- Two threads that send synchronous messages to each other: absence of deadlock is not claimed.
- Asynchronous cancellation, `pthread_once`, attributes and scheduling parameters.
- The semaphore and mutex wrappers for VxWorks, cursor, input-method, layer and clipboard requests, the FastCGI and socket samples, and the PurC instance start-up.
