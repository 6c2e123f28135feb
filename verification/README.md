# GCE: a verified model of its message runtime

GCE is an actor runtime for C++. Actors live on strands of several threads, send each other packs with a
message inside, link to and monitor each other, and reach other processes through sockets. This project models
the parts of it in which state is shared, indexed, reused or encoded, and proves what they promise. With Dafny
4.11, `dafny verify dfyconfig.toml` checks the whole project.

| module | what it models |
|---|---|
| `PackQueues` | the cross-thread queue of the nonblocking actor: one deque for each producer, a lock-free FIFO of raw pointers, and reclamation up to an index the consumer publishes. A step system of all interleavings, and the class whose methods are runs of it |
| `MailboxSpec`, `Mailboxes` | the mailbox: an arrival list with a queue of list iterators for each message type and two indexes of exit notices. First what it promises, on a plain list and over whole runs; then the class that keeps the indexes |
| `ThreadActors` | blocking receives and response waits of the thread-mapped actor: promises, one restartable timer, late timer callbacks |
| `CoroutineActors` | the waits of the stackful actor, whose coroutine is suspended in one wait at a time |
| `StacklessActors` | the waits of the stackless actor, which register handlers, may overlap, and share one timer and one match list |
| `LinkProtocol` | links, monitors, deaths and the notices of them between local actors, as a distributed step system in which messages arrive in any order, and the actor objects whose methods take these steps |
| `Codec`, `Fields`, `ZeroCopy` | the variable-length integers, strings and sequences of the serialisation library, the size predictor, and the buffer that writes and reads them in place |
| `Messages`, `MessagePrograms` | the copy-on-write message object with its counted blocks; any program over any number of messages against the same program with eager copies |
| `Tags` | the tag block behind a message body, for all seven kinds that travel |
| `FrameParser` | framing on a byte stream: the fixed receive cache, its moving start, and the read loop |
| `TcpSender` | the double-buffered TCP sender |
| `Deliveries` | the way of a pack between processes, through all of the above: tag, frame, sender, stream, receiver, tag |
| `SocketLinks` | the link tables of a socket through a whole use of it, and the exits that a broken or ended connection sends |
| `FreeLists` | the intrusive pool of reusable objects |
| `CachePools` | round-robin selection of sockets |
| `Atoms` | the base-28 packing of names into 64 bits |
| `Ids`, `LinkTypes`, `Sequences` | identifiers and sequence operations that several modules share |

Sources that mutate objects are modelled as classes with the source's fields, and their methods are proved
against functions of the old state. Claims about every interleaving are made about step systems (`Step`,
`Enabled`, `Apply`), where a strand is a sequence of atomic steps; claims about every run are lemmas over
sequences of steps. A method that takes a whole sequence of operations (`Program.Run`, `Receiver.RecvAll`,
`Sender.Drain`, `ConnTable.SelectRound`, `Socket.Use`, `Runtime.Run`, `Transfer`) stands for an arbitrary caller.

## What came out false, and exactly when it holds

* Being in an actor's link list does not mean that its death is reported to that actor. A monitor request puts
  the watcher into the watched actor's list, and the watcher's own death then goes unreported
  (`MonitoredIsListedButNotTold`). For a live actor it holds exactly when the actor is bound to the other one, that
  is, when it asked to watch it or was asked to be linked by it: in every reachable state the news is owed, on its
  way or delivered if and only if that is so (`ExactlyTheBoundAreCovered`; `ToldExactlyTheBound` once all has
  arrived, `ListsExplained` for who else is listed).
* Only incarnation numbers that were handed out may be asked for. The number of a pooled object is even; a request
  for one is accepted in silence and never answered (`UnpublishedIsNeverReported`). A number that is still to come
  is answered as if it had already exited (`EarlyRequestMisleads`).
* Signed integers come back exactly when they are not the smallest of their width, which comes back as zero
  (`SignedRoundTripsExactlyAboveMin`, `MinReadsAsZero`). Strings and sequences come back exactly when their length
  fits 32 bits: it is written as 64 bits and read as 32 (`RoundTripField`). The two-byte form of unsigned integers
  is never written, because its limit is octal (zerocopy.hpp:353, amsg.hpp:300); the predictor has the same limit,
  so sizes stay exact (`SizeExact`).
* The limit on a message body does not keep a frame inside the receive cache, because its header is not counted
  (`BodyLimitIsNotEnough`). A frame is delivered exactly when it ends inside the cache (`Receiver.Recv`,
  `DeliveredOnlyIfItFits`); header and body within 5535 bytes together are enough (`SmallFramesFit`). Making the
  connection again does not empty the cache, so a half-received frame takes its missing bytes from the new stream
  (`LeftoverSwallowsNewStream` for a body, `LeftoverSplitsHeader` for a header). With an empty cache the new frames
  are delivered behind the old ones (`ReconnectedTracks`, `Reconnect`).
* A caller that waits for the TCP sender is released if and only if the last write ends on a closed socket
  (`Sender.Drain`), so one that waits before closing can be left waiting (`EarlyWaiterIsForgotten`). The program
  closes first wherever it waits (socket.cpp:918 is reached only after `close`), so this is a limit of the class.
* A stackless actor may start a wait while another is registered. No handler is ever called twice
  (`CalledByTimer`), but waits can lose their deadline, or be dropped, so that they are never called
  (`StacklessActor.Run`). For every event and every wait it is known before the event whether the wait is called,
  stays registered and keeps the deadline (`StacklessActor.Perform`). A wait is dropped if and only if it is
  registered with its deadline and a wait of its kind begins with a deadline; or it is registered without one and a
  wait of its kind begins or another one of its kind times out; or its place was taken before and its deadline is
  then taken by another wait or stopped by an arrival that calls a handler (`StacklessActor.Drops`,
  `StacklessActor.DroppedIf`). A wait that begins counts only if it is not answered at once.
* In particular, what a second wait leaves to an earlier one as it begins (`ReceiveOverOther`,
  `ResponseWaitOverOther`, `SleepOverOther`) need not last. An arrival takes the deadline of a wait that it does not
  call if and only if it calls a handler of another kind (`ArrivalOverOther`, `LaterReceiveTakesDeadline`), and a
  timeout puts a wait out of its place uncalled if and only if it is that of another wait of its kind
  (`TimeoutOverOther`, `EarlierTimeoutDropsLater`). A receive that stays registered loses its match list if and only
  if a response wait times out (`TimeoutUnderReceive`, and `StillWanted` in `StacklessActor.Perform`), and is then
  called with messages it excluded (`OverlapForgetsMatch`).
* The assertion that a router knows the way of an exit back (socket.cpp:190) holds if and only if the pair is
  recorded when the exit arrives (`Socket.ExitIn`). Two linked actors that exit at the same time make it fail
  (`CrossingExits`).
* A link request that a router passes on to a socket which has just ended is dropped without an answer, unlike one
  that started in this process (`Socket.HandleRecv`, `ForwardedLinkIsLost`).
* Fourteen-character names may wrap around 64 bits. The type of exit notices and of response tags does, so those
  numbers cannot be turned back into their names (`NameRoundTrips`, `LongNamesDoNotComeBack`).
* Selecting a socket for no particular context can give none although another context has sockets
  (`ConnTable.SelectAny`).

## Model

| member | source | states |
|---|---|---|
| PackQueues.StepSafe | libs/actor/src/nonblocking_actor.cpp:80-110 | in every state of the invariant, each step that control flow allows reads only allocated packs, frees only what its deque has, and passes the size assertion |
| PackQueues.StepInv | libs/actor/src/nonblocking_actor.cpp:80-191 | every step of producers and consumer keeps the invariant: each deque holds the contiguous numbers up to its base, each pack where its number says, FIFO and held packs inside the unpublished part |
| PackQueues.FreedUnreachable | libs/actor/src/nonblocking_actor.cpp:88-95 | a pack about to be freed is not in the FIFO, not being handled and not held for publishing |
| PackQueues.NoRunIsUnsafe | libs/actor/src/nonblocking_actor.cpp:80-191 | for any number of producers and any interleaving from the start, no unsafe step can be reached |
| PackQueues.ExactlyOnceInOrder | libs/actor/src/nonblocking_actor.cpp:107-109 | after any run, what was handled for a producer followed by what is pending for it is everything it pushed, in order |
| PackQueues.NothingLeaks | libs/actor/src/nonblocking_actor.cpp:92-95 | the allocated packs are exactly those in the deques |
| PackQueues.PublishedIsReclaimed | libs/actor/src/nonblocking_actor.cpp:88-95 | over any run, once what was handed over is published, the next push frees all of it and nothing that is still to be handled |
| PackQueues.HandledIsReclaimable | libs/actor/src/nonblocking_actor.cpp:88-95 | how many packs a push frees, in any state of the invariant |
| PackQueues.NonblockingActor.OnRecv | libs/actor/src/nonblocking_actor.cpp:80-110 | a push is a run of the step system that frees what was published, stores the new pack last and makes it visible |
| PackQueues.NonblockingActor.Reclaim | libs/actor/src/nonblocking_actor.cpp:85-105 | frees exactly the packs up to the published index, oldest first, as a run of the step system |
| PackQueues.NonblockingActor.HandleNext | libs/actor/src/nonblocking_actor.cpp:186-190 | one pop remembers and handles the pack in place, in two recorded steps |
| PackQueues.NonblockingActor.ReleasePack | libs/actor/src/nonblocking_actor.cpp:168-178 | publishing is a run of the step system over all producers, after which the number published for each is that of the last pack handed over |
| PackQueues.NonblockingActor.MovePack | libs/actor/src/nonblocking_actor.cpp:180-191 | undisturbed, it drains the FIFO, everything ever pushed has then been handed over, and all of it can be freed |
| PackQueues.NonblockingActor.PushAfterMove | libs/actor/src/nonblocking_actor.cpp:80-110 | after that, a push leaves exactly one pack in the deque |
| MailboxSpec.PopIndexMeaning | libs/actor/src/mailbox.cpp:45-67 | a receive fails exactly when nothing queued is wanted, and otherwise takes the oldest message of the first listed type that has any |
| MailboxSpec.BestMatchUnique | libs/actor/src/mailbox.cpp:58-64 | that description fixes one message |
| MailboxSpec.FirstListedMeaning | libs/actor/src/mailbox.cpp:58-66 | trying the listed types in turn finds the best match, and nothing exactly when no queued type is listed |
| MailboxSpec.ArrivalWakes | libs/actor/src/mailbox.cpp:159-204 | when nothing queued is wanted, the next arrival is taken exactly when it is wanted itself |
| MailboxSpec.TypeFifo | libs/actor/src/mailbox.cpp:126-263 | over any run, the messages of a type taken and then still queued are those that arrived, in order and without the notices that later ones replaced |
| MailboxSpec.EachInOnePlace | libs/actor/src/mailbox.cpp:126-263 | after any run a message is queued, taken or replaced, and only one of these |
| MailboxSpec.LatestNoticeKept | libs/actor/src/mailbox.cpp:178-203 | replacing exit notices loses no news: the latest of every sender or service is queued or was taken |
| MailboxSpec.RunOnePerSlot | libs/actor/src/mailbox.cpp:178-203 | no run ever queues two notices of one sender or service |
| MailboxSpec.ReplacedExactly | libs/actor/src/mailbox.cpp:178-203 | an arrival replaces exactly the exit notices of the same service or, where neither names one, of the same actor |
| MailboxSpec.RequestsStay | libs/actor/src/mailbox.cpp:142-151 | a request neither replaces anything nor is replaced |
| Mailboxes.IdsAfterErase | libs/actor/src/mailbox.cpp:187-188 | erasing a node takes its iterator out of its own type queue and touches no other |
| Mailboxes.IdsHead | libs/actor/src/mailbox.cpp:223-226 | the head of a type queue is the oldest message of that type, so a fetch of the arrival head's type cannot fail |
| Mailboxes.ExitsAfterPush | libs/actor/src/mailbox.cpp:178-203 | the exit indexes stay exactly the queued notices when one replaces another |
| Mailboxes.ExitsAfterErase | libs/actor/src/mailbox.cpp:234-257 | and when one is taken |
| Mailboxes.TypesAfterErase | libs/actor/src/mailbox.cpp:223-230 | all type queues stay exact, and map-held ones nonempty, when a node goes |
| Mailboxes.HolderNamed | libs/actor/src/mailbox.cpp:180-189 | the iterator an exit index holds names the one queued notice of its slot, which is of the exit type |
| Mailboxes.AwaitedActor | libs/actor/src/mailbox.cpp:83-93 | for an awaited actor, the notice that stands in is one of that actor without a service, and there is none only if no such notice is queued |
| Mailboxes.AwaitedService | libs/actor/src/mailbox.cpp:94-104 | for an awaited service, it is a notice of an actor under that service |
| Mailboxes.Mailbox.AddMatchMsg | libs/actor/src/mailbox.cpp:159-204 | the arrival list becomes the old one without the replaced notice, and the new message last; all indexes agree |
| Mailboxes.Mailbox.Enqueue | libs/actor/src/mailbox.cpp:161-176 | the new node goes last and its iterator behind its type's queue |
| Mailboxes.Mailbox.EraseHolder | libs/actor/src/mailbox.cpp:185-201 | a replaced notice leaves the list and the queue of exits, by its iterator |
| Mailboxes.Mailbox.PushAid | libs/actor/src/mailbox.cpp:126-132 | a message is queued, in place of the sender's earlier notice if it is one |
| Mailboxes.Mailbox.PushExit | libs/actor/src/mailbox.cpp:134-140 | so is an exit notice |
| Mailboxes.Mailbox.PushRequest | libs/actor/src/mailbox.cpp:142-151 | a request is queued, and remembered for its reply behind earlier ones of the same actor |
| Mailboxes.Mailbox.PushResponse | libs/actor/src/mailbox.cpp:153-157 | the first response of an identifier is kept |
| Mailboxes.Mailbox.Pop | libs/actor/src/mailbox.cpp:45-67 | takes the best match off the list, or fails and changes nothing exactly when nothing is wanted |
| Mailboxes.Mailbox.FetchMatchMsg | libs/actor/src/mailbox.cpp:206-263 | takes the oldest message of a type and keeps all indexes exact |
| Mailboxes.Mailbox.PopFront | libs/actor/src/mailbox.cpp:208-230 | the head iterator of a type names its oldest message, and an emptied map-held queue goes |
| Mailboxes.Mailbox.ReleaseSlot | libs/actor/src/mailbox.cpp:234-257 | the index entry of a notice goes with it |
| Mailboxes.Mailbox.Clear | libs/actor/src/mailbox.cpp:30-43 | clearing leaves an empty mailbox whose indexes agree |
| Mailboxes.Mailbox.PopResponse | libs/actor/src/mailbox.cpp:69-108 | the response of that identifier, or else the queued exit notice of the awaited actor or service, if and only if there is one; it stays queued, and the answer names the dead actor |
| Mailboxes.Mailbox.PopRequest | libs/actor/src/mailbox.cpp:110-124 | requests of an actor are replied to in order of arrival |
| ThreadActors.ThreadActor.TryRecv | libs/actor/src/thread_mapped_actor.cpp:224-243 | settles the promise at once with the best match, or blocks with nothing wanted in the queue |
| ThreadActors.ThreadActor.TryResponse | libs/actor/src/thread_mapped_actor.cpp:245-264 | settles at once with the response or a queued exit notice, or blocks with the response absent |
| ThreadActors.Queue | libs/actor/src/thread_mapped_actor.cpp:325-352 | a message is queued by where it comes from, and a request waits for its reply besides |
| ThreadActors.ThreadActor.HandleTimeout | libs/actor/src/thread_mapped_actor.cpp:292-320 | a callback with the current number belongs to the promise waited on, and settles it; any other changes nothing |
| ThreadActors.ThreadActor.StartTimer | libs/actor/src/thread_mapped_actor.cpp:266-290 | a started timer is the only current one |
| ThreadActors.ThreadActor.RetireTimer | libs/actor/src/thread_mapped_actor.cpp:385-387 | after a completed wait no outstanding callback is current |
| ThreadActors.ThreadActor.HandleRecv | libs/actor/src/thread_mapped_actor.cpp:322-388 | a blocked receive is completed by exactly the first arrival it wants, and a response wait by the awaited response; every promise is settled at most once, and what ends no wait stays in the mailbox |
| ThreadActors.ThreadActor.WakeRecv | libs/actor/src/thread_mapped_actor.cpp:355-371 | a blocked receive takes the arrival exactly when it wants it |
| ThreadActors.ThreadActor.WakeResponse | libs/actor/src/thread_mapped_actor.cpp:372-383 | a response wait is completed by its response or by a queued notice of the awaited actor |
| CoroutineActors.TakeWanted | libs/actor/src/coroutine_stackful_actor.cpp:332-337 | when nothing queued was wanted, an arrival is taken exactly when it is wanted, and otherwise still nothing is |
| CoroutineActors.StackfulActor.Recv | libs/actor/src/coroutine_stackful_actor.cpp:42-90 | returns at once with the best match, or suspends the coroutine with nothing wanted in the queue; a poll never suspends |
| CoroutineActors.StackfulActor.RecvResponse | libs/actor/src/coroutine_stackful_actor.cpp:92-125 | returns at once with the response or a queued exit notice, or suspends with the response absent |
| CoroutineActors.StackfulActor.Wait | libs/actor/src/coroutine_stackful_actor.cpp:127-131 | a sleep always has a deadline, and no message can end it |
| CoroutineActors.StackfulActor.StartTimer | libs/actor/src/coroutine_stackful_actor.cpp:274-285 | a new deadline is the only current one |
| CoroutineActors.StackfulActor.HandleTimeout | libs/actor/src/coroutine_stackful_actor.cpp:287-293 | a callback with the current number finds the coroutine suspended in the wait it was started for; a late one resumes nothing |
| CoroutineActors.StackfulActor.HandleRecv | libs/actor/src/coroutine_stackful_actor.cpp:295-354 | a suspended receive ends with exactly the first arrival it wants, a response wait with its response; every wait ends at most once |
| CoroutineActors.StackfulActor.WakeRecv | libs/actor/src/coroutine_stackful_actor.cpp:330-353 | the coroutine goes on with the arrival exactly when it wants it, and then no callback is current |
| CoroutineActors.StackfulActor.WakeResponse | libs/actor/src/coroutine_stackful_actor.cpp:340-353 | the coroutine goes on with its response or with a queued notice of the awaited actor |
| StacklessActors.TimerTakenOver | libs/actor/src/coroutine_stackless_actor.cpp:249-286 | a wait with a deadline takes the timer over however many waits there are, and no handler can then be called twice |
| StacklessActors.CalledByTimer | libs/actor/src/coroutine_stackless_actor.cpp:288-348 | the slot that the current callback empties is taken, as the source asserts, and its handler was not called before |
| StacklessActors.NoneLostByTimer | libs/actor/src/coroutine_stackless_actor.cpp:288-348 | if waits do not overlap, the handler called is the only one registered, and every handler was called or is registered |
| StacklessActors.StacklessActor.Recv | libs/actor/src/coroutine_stackless_actor.cpp:94-125 | posts the handler with the best match, or with nothing when polling, or registers it; no handler is lost unless one was registered already |
| StacklessActors.StacklessActor.RecvResponse | libs/actor/src/coroutine_stackless_actor.cpp:127-156 | posts the handler with the response or a queued exit notice, or registers it |
| StacklessActors.StacklessActor.WaitFor | libs/actor/src/coroutine_stackless_actor.cpp:158-162 | registers a handler that only the timer calls |
| StacklessActors.StacklessActor.HandleTimeout | libs/actor/src/coroutine_stackless_actor.cpp:288-348 | a late callback changes nothing; the current one calls its own handler, for the first time, and both message kinds empty the match list |
| StacklessActors.StacklessActor.HandleRecv | libs/actor/src/coroutine_stackless_actor.cpp:350-434 | the registered receive handler is called with the best match, and the timer number advances exactly then; if waits do not overlap, that is this arrival, exactly when it is wanted |
| StacklessActors.StacklessActor.HandleResponse | libs/actor/src/coroutine_stackless_actor.cpp:376-434 | the registered response handler is called with its response or a queued notice, the timer number advances exactly then, and a registered receive is left alone |
| StacklessActors.StacklessActor.Call | libs/actor/src/coroutine_stackless_actor.cpp:393-427 | a handler called by an arrival is called once, the timer number advances, and no callback is current afterwards |
| StacklessActors.StacklessActor.Perform | libs/actor/src/coroutine_stackless_actor.cpp:94-434 | for any event over any overlapping waits, who is called, who stays registered, who keeps the deadline and what each still waits for, from what is known before |
| StacklessActors.StacklessActor.DroppedIf | libs/actor/src/coroutine_stackless_actor.cpp:94-434 | the exact condition, known before an event, under which it leaves a wait that nothing can call any more |
| StacklessActors.StacklessActor.Run | libs/actor/src/coroutine_stackless_actor.cpp:94-434 | a dropped wait is never called, whatever events follow |
| StacklessActors.StacklessActor.WaitForeseen | libs/actor/src/coroutine_stackless_actor.cpp:94-162 | a wait that begins takes the place of its kind, and the timer if it has a deadline |
| StacklessActors.StacklessActor.ArrivalForeseen | libs/actor/src/coroutine_stackless_actor.cpp:350-434 | an arrival calls at most the handler of its kind, and stops the timer exactly then |
| StacklessActors.OverlapForgetsMatch | libs/actor/src/coroutine_stackless_actor.cpp:309-328 | after a response timeout, a registered receive is called with a message it excluded |
| StacklessActors.ReceiveOverOther | libs/actor/src/coroutine_stackless_actor.cpp:94-125 | as a receive begins over another wait, that one stays registered if and only if it is of another kind or the receive is answered at once, and keeps its deadline if and only if the receive has none or is answered at once |
| StacklessActors.ResponseWaitOverOther | libs/actor/src/coroutine_stackless_actor.cpp:127-156 | the same as a response wait begins |
| StacklessActors.SleepOverOther | libs/actor/src/coroutine_stackless_actor.cpp:158-162 | as a sleep begins, it takes the deadline in any case, and the place of another sleep |
| StacklessActors.ArrivalOverOther | libs/actor/src/coroutine_stackless_actor.cpp:385-419 | an arrival takes the deadline of a registered wait without calling it if and only if it calls a handler of another kind |
| StacklessActors.TimeoutOverOther | libs/actor/src/coroutine_stackless_actor.cpp:288-348 | a timeout takes a wait out of its place without calling it if and only if it is the timeout of another wait of its kind |
| StacklessActors.LaterReceiveTakesDeadline | libs/actor/src/coroutine_stackless_actor.cpp:385-419 | an earlier wait loses the deadline it kept exactly when the first arrival is one that the later receive wants |
| StacklessActors.EarlierTimeoutDropsLater | libs/actor/src/coroutine_stackless_actor.cpp:288-307 | the timeout of an earlier receive drops the later one that took its place |
| StacklessActors.TimeoutUnderReceive | libs/actor/src/coroutine_stackless_actor.cpp:288-348 | a registered receive loses its match list by a timeout if and only if the current callback is a response wait's |
| LinkProtocol.StepInv | libs/actor/src/basic_actor.cpp:290-382 | every step, in any order, keeps each live bound actor covered: request in flight, other side alive with it in its list, or the notice in flight or delivered |
| LinkProtocol.NoDeathUnreported | libs/actor/src/coroutine_stackful_actor.cpp:252-258 | in every reachable state, the death of an actor that a live actor is bound to has been or is still going to be reported |
| LinkProtocol.ExactlyTheBoundAreCovered | libs/actor/src/basic_actor.cpp:290-402 | in every reachable state, the news of a death is owed to a live actor, on its way or delivered if and only if it is bound to the dead |
| LinkProtocol.ToldExactlyTheBound | libs/actor/src/coroutine_stackless_actor.cpp:242-247 | when nothing is in flight, an actor has been told of a death if and only if it was bound to the dead |
| LinkProtocol.ListsExplained | libs/actor/src/coroutine_stackful_actor.cpp:309-313 | who is in a live actor's lists is bound to it or monitors it |
| LinkProtocol.ListedExactly | libs/actor/src/basic_actor.cpp:290-362 | over any run, an actor is in a live actor's links, or among those it monitors, if and only if a request put it there in this incarnation and no news of its exit has been delivered since |
| LinkProtocol.ListedByStep | libs/actor/src/basic_actor.cpp:290-362 | the same for one step |
| LinkProtocol.NoticesAreTrue | libs/actor/src/basic_actor.cpp:334-382 | a notice about an actor that existed when it was asked for is never wrong |
| LinkProtocol.AnswerWrongExactlyIfEarly | libs/actor/src/coroutine_stackful_actor.cpp:356-362 | a delivered request is answered with the exit of an incarnation that has not exited if and only if it asks for a number still to come |
| LinkProtocol.RequestAnswered | libs/actor/src/coroutine_stackful_actor.cpp:295-369 | a delivered request is recorded by a living actor or answered with an already-exited notice |
| LinkProtocol.MonitoredIsListedButNotTold | libs/actor/src/coroutine_stackful_actor.cpp:309-313 | a reachable state in which an actor of a live actor's link list has died and it is not told |
| LinkProtocol.UnpublishedIsNeverReported | libs/actor/src/basic_actor.cpp:275-278 | a run in which a request for a pooled object's number is never answered |
| LinkProtocol.EarlyRequestMisleads | libs/actor/src/coroutine_stackful_actor.cpp:356-362 | a reachable state in which an actor was told of the exit of one that lives |
| LinkProtocol.BasicActor.Link | libs/actor/src/basic_actor.cpp:290-331 | the actor's part of a link step: its list and the request it sends |
| LinkProtocol.BasicActor.HandleRecv | libs/actor/src/coroutine_stackful_actor.cpp:295-369 | the actor's part of a delivery, and the answer to a request for another incarnation |
| LinkProtocol.BasicActor.SendExit | libs/actor/src/basic_actor.cpp:334-356 | one exit notice for each link |
| LinkProtocol.BasicActor.FreeSelf | libs/actor/src/coroutine_stackful_actor.cpp:252-258 | death in one step: a new number, the notices under the old one, lists emptied |
| LinkProtocol.BasicActor.Stop | libs/actor/src/coroutine_stackless_actor.cpp:242-247 | the second half sends the notices under the number given up |
| LinkProtocol.Runtime.Perform | libs/actor/src/basic_actor.cpp:290-402 | every step of the system is what the methods of one actor object do, with the packets they return put in flight |
| LinkProtocol.Runtime.Run | libs/actor/src/basic_actor.cpp:290-402 | every run of the step system, and so everything claimed of runs, is one that the objects take |
| LinkProtocol.DeliveryIs | libs/actor/src/coroutine_stackful_actor.cpp:295-369 | a delivery changes only the addressed actor, and puts its answer in flight |
| Codec.RoundTripU | gce/amsg/zerocopy.hpp:296-373 | an unsigned value of any width decodes to itself from its encoding, whatever follows, and uses up exactly that |
| Codec.RoundTripShortU | gce/amsg/amsg.hpp:1059-1095 | so it does from the generic writer's shorter form |
| Codec.RoundTripI | gce/amsg/zerocopy.hpp:375-466 | a signed value decodes to itself, the smallest to zero, using up exactly its encoding |
| Codec.SignedRoundTripsExactlyAboveMin | gce/amsg/zerocopy.hpp:437-450 | a signed value comes back if and only if it is not the smallest of its width |
| Codec.MinReadsAsZero | gce/amsg/zerocopy.hpp:439-451 | the smallest value is written as a sign and a zero byte |
| Codec.PrefixShortU | gce/amsg/zerocopy.hpp:44-64 | an unsigned encoding cut anywhere reads as an overrun |
| Codec.PrefixShortI | gce/amsg/zerocopy.hpp:383-409 | a signed encoding cut anywhere reads as an overrun |
| Codec.UnsignedBytes | gce/amsg/zerocopy.hpp:296-968 | the bytes of an unsigned value: a tag with their number, and then no more than needed but at least two, lowest first |
| Codec.SignedBytes | gce/amsg/zerocopy.hpp:296-968 | the bytes of a signed value: a tag with its sign and their number, and then its size, lowest first |
| Codec.SizeExactU | gce/amsg/amsg.hpp:287-445 | the predicted size of an unsigned value is what its writer emits |
| Codec.SizeExactI | gce/amsg/amsg.hpp:309-496 | the predicted size of a signed value is what its writer emits |
| Fields.RoundTripField | gce/amsg/amsg.hpp:1792-2009 | a number, string or nested sequence comes back from its encoding if and only if it holds no smallest signed number and no length beyond 32 bits |
| Fields.RoundTripMany | gce/amsg/amsg.hpp:1943-2009 | the elements of a sequence come back in order, if and only if each does |
| Fields.RoundTripAll | gce/amsg/amsg.hpp:2470-2518 | values of different types written one after another are read back in order, and nothing behind them is used up |
| Fields.PrefixOverruns | gce/amsg/amsg.hpp:1792-1978 | a value cut anywhere before its end is noticed as an overrun |
| Fields.AllPrefix | gce/amsg/amsg.hpp:2486-2496 | so is a cut structure |
| Fields.SizeExact | gce/amsg/amsg.hpp:520-581 | the predicted size of any value, nested sequences included, is exact |
| ZeroCopy.ZeroCopyBuffer.AppendWrite | gce/amsg/zerocopy.hpp:81-92 | claims bytes exactly when they fit |
| ZeroCopy.ZeroCopyBuffer.GetChar | gce/amsg/zerocopy.hpp:56-64 | takes one byte, or notices the overrun and takes none |
| ZeroCopy.ZeroCopyBuffer.ReadBytes | gce/amsg/zerocopy.hpp:44-54 | takes all the bytes asked for or none |
| ZeroCopy.ZeroCopyBuffer.WriteBytes | gce/amsg/zerocopy.hpp:66-77 | writes all the bytes or, when they do not fit, none |
| ZeroCopy.ZeroCopyBuffer.WriteTagged | gce/amsg/zerocopy.hpp:359-365 | a tag and the low bytes, lowest first, with nothing before them touched |
| ZeroCopy.ZeroCopyBuffer.WriteU16 | gce/amsg/zerocopy.hpp:336-373 | emits the encoding of 16-bit unsigned values |
| ZeroCopy.ZeroCopyBuffer.WriteI16 | gce/amsg/zerocopy.hpp:423-466 | emits the encoding of 16-bit signed values, the wrapped smallest included |
| ZeroCopy.ZeroCopyBuffer.WriteU32 | gce/amsg/zerocopy.hpp:507-561 | emits the encoding of 32-bit unsigned values |
| ZeroCopy.ZeroCopyBuffer.WriteI32 | gce/amsg/zerocopy.hpp:611-671 | emits the encoding of 32-bit signed values |
| ZeroCopy.ZeroCopyBuffer.WriteU64 | gce/amsg/zerocopy.hpp:713-812 | emits the encoding in place, in the room claimed, and leaves everything before it |
| ZeroCopy.ZeroCopyBuffer.WriteI64 | gce/amsg/zerocopy.hpp:862-968 | the same for signed values, by the writer's own chain of limits |
| ZeroCopy.ZeroCopyBuffer.Write | gce/amsg/zerocopy.hpp:713-812 | any value is written as its encoding, the same claim for every type |
| ZeroCopy.ZeroCopyBuffer.WriteList | gce/amsg/amsg.hpp:1980-2009 | a sequence is written as its length and its elements |
| ZeroCopy.ZeroCopyBuffer.WriteDefaultU | gce/amsg/amsg.hpp:1059-1095 | the generic writer emits its shortest form of an unsigned value, or notices that there is no room and writes nothing |
| ZeroCopy.ZeroCopyBuffer.WriteDefaultI | gce/amsg/amsg.hpp:1146-1602 | the generic writer emits the same bytes for a signed value as the zero-copy writer, or notices that there is no room |
| ZeroCopy.ZeroCopyBuffer.ReadUnsigned | gce/amsg/zerocopy.hpp:673-711 | reads what the format says, with its overruns and its silent rejections |
| ZeroCopy.ZeroCopyBuffer.ReadSigned | gce/amsg/zerocopy.hpp:814-860 | the same for signed values |
| ZeroCopy.ZeroCopyBuffer.Read | gce/amsg/amsg.hpp:1792-1978 | reads any value as the format says, and stops a sequence where the source does |
| ZeroCopy.ZeroCopyBuffer.ReadElems | gce/amsg/amsg.hpp:1961-1976 | the element loop ends behind the first element after which an error code is set |
| ZeroCopy.ZeroCopyBuffer.ReadStruct | gce/amsg/amsg.hpp:2486-2496 | reads the members of a structure up to the first error |
| Messages.Message.Reserve | gce/actor/message.hpp:528-569 | makes the room asked for in a block that nobody else sees; the bytes are unchanged, and a shared block is left to its other holders with one less |
| Messages.Buffer.Resize | gce/actor/detail/buffer.hpp:57-69 | never shrinks, and keeps what was there in front |
| Messages.Buffer.Release | gce/detail/ref_count.hpp:62-70 | the last reference to go destroys the block |
| Messages.Message.FromBytes | gce/actor/message.hpp:88-106 | a message of given bytes holds them, in a block of its own when they are many |
| Messages.Message.Copy | gce/actor/message.hpp:108-125 | a copy has the same type, tag offset and bytes, starts reading over, and is one more holder of a large message's block |
| Messages.Message.Assign | gce/actor/message.hpp:127-155 | assignment gives the other's value; counts follow, and the last holder of the old block destroys it |
| Messages.Message.AppendField | gce/actor/message.hpp:167-190 | appends exactly the encoding in the room predicted, without an overflow, and never writes to a shared block |
| Messages.Message.AppendFields | gce/actor/message.hpp:167-190 | so for a structure, in one room |
| Messages.Message.AppendChars | gce/actor/message.hpp:280-289 | characters behind their length, both narrowed to 32 bits |
| Messages.Message.AppendMessage | gce/actor/message.hpp:209-244 | appends header and bytes of another message, which may share the block |
| Messages.Message.ReadField | gce/actor/message.hpp:192-207 | reads the next value, or reports an overrun and uses up nothing |
| Messages.Message.Skip | gce/actor/detail/buffer_ref.hpp:77-85 | the read cursor cannot pass the end of what was written |
| Messages.Message.ReadMessage | gce/actor/message.hpp:246-278 | takes out the message that was put in |
| Messages.NestedRoundTrip | gce/actor/message.hpp:209-278 | putting a message into another and taking it out gives back type, tag offset and bytes, and uses up exactly what was appended |
| Messages.HeaderRoundTrip | gce/actor/message.hpp:232-273 | the three numbers in front of a nested message come back |
| MessagePrograms.Program.Run | gce/actor/message.hpp:54-190 | any program of constructions, copies, assignments, appends (a message to itself included), tags pushed and taken, and destructions leaves every message with the value that eager copying gives it |
| MessagePrograms.Program.Sharing | gce/actor/message.hpp:395-398 | a message is small exactly when it holds no block, and a block's count is the number of messages that hold it |
| MessagePrograms.Program.AppendMsg | gce/actor/message.hpp:209-244 | the argument is copied, appended and destroyed, and no other message changes |
| MessagePrograms.Program.Append | gce/actor/message.hpp:167-190 | appending to one message changes no other, even one that shared its block |
| MessagePrograms.Program.CopyOf | gce/actor/message.hpp:108-125 | copying changes no message |
| MessagePrograms.Program.AddTag | gce/actor/message.hpp:401-446 | pushing a tag puts its block behind the body of one message, and changes no copy of it, even one that shared its block |
| MessagePrograms.Program.TakeTag | gce/actor/message.hpp:448-526 | taking a tag off leaves one message with the bytes in front of it, and changes no other |
| MessagePrograms.Program.Assign | gce/actor/message.hpp:127-155 | assigning gives a message the value of the other, changes no other message, and destroys the old block if nobody else holds it; to itself it changes nothing |
| MessagePrograms.Program.Destroy | gce/detail/ref_count.hpp:46-54 | a block that no message holds any more is destroyed |
| MessagePrograms.HoldersCounted | gce/detail/ref_count.hpp:41-54 | counting holders one by one gives the size of the set of holders |
| MessagePrograms.ByValue | gce/actor/message.hpp:209-244 | copying the argument for the length of the call gives the same bytes as appending the original |
| Tags.PopUndoesPush | gce/actor/message.hpp:401-526 | from a zero read cursor, popping returns the tag of any of the seven kinds without its local-only fields, receiver, service, socket and error flag, and restores the body |
| Tags.BlockRoundTrip | gce/actor/message.hpp:401-520 | a tag block is read back whatever follows it |
| Tags.BlockBytes | gce/actor/message.hpp:401-446 | the numbers of a block in the order they are written: the kind and its numbers, actor, receiver, service, socket, flag; an identifier is context, start time, object, incarnation, service |
| Tags.PopCuts | gce/actor/message.hpp:448-526 | popping leaves the bytes in front of the tag, to be read from the start |
| Tags.TagWritable | gce/actor/message.hpp:407-516 | the type code of each tag calls for exactly the kinds of its fields, and they make up the tag again |
| Tags.PushTag | gce/actor/message.hpp:401-446 | appends the block in writing order behind the body and remembers its offset |
| Tags.PopTag | gce/actor/message.hpp:448-526 | reads the block at the offset and cuts it off; without a tag nothing changes |
| Tags.ReadBlock | gce/actor/message.hpp:458-520 | the type decides which values are read, one after another |
| FrameParser.FrameRoundTrip | libs/actor/src/socket.cpp:372-387 | a whole frame is parsed as itself whatever follows, and refused by its header when its body is beyond the limit |
| FrameParser.FramePrefix | libs/actor/src/socket.cpp:757-776 | part of a frame is never taken for a frame |
| FrameParser.HeaderBytes | libs/actor/src/socket.cpp:372-387 | a header is the size of the body in four bytes, and then type and tag offset |
| FrameParser.Receiver.ParseMessage | libs/actor/src/socket.cpp:755-792 | takes the frame at the start of what is unread, slides the cache beyond the limit, and otherwise changes nothing |
| FrameParser.Receiver.Slide | libs/actor/src/socket.cpp:782-790 | what is unread moves to the front unchanged |
| FrameParser.Receiver.Recv | libs/actor/src/socket.cpp:849-878 | whatever sizes the reads have, the next frame is delivered as sent, and every read finds room, if the frame ends inside the cache |
| FrameParser.Receiver.RecvAll | libs/actor/src/socket.cpp:425-456 | all frames sent are delivered, in order and unchanged |
| FrameParser.DeliveredOnlyIfItFits | libs/actor/src/socket.cpp:767-792 | a frame that is delivered ended inside the cache and within the body limit |
| FrameParser.NeverComplete | libs/actor/src/socket.cpp:854-861 | a frame that does not fit is never parsed, however much of the stream the cache holds |
| FrameParser.SmallFramesFit | libs/actor/src/socket.cpp:767-790 | header and body together within the limit always fit |
| FrameParser.BodyLimitIsNotEnough | libs/actor/src/socket.cpp:767-770 | frames with bodies within the limit of which one does not fit |
| FrameParser.LeftoverSwallowsNewStream | libs/actor/src/socket.cpp:794-847 | what is left of a broken frame is completed with bytes of the next connection |
| FrameParser.LeftoverSplitsHeader | libs/actor/src/socket.cpp:794-847 | a header cut by the break ends in the new stream, and the frame that comes out has a body of the new stream alone |
| FrameParser.CutAll | libs/actor/src/socket.cpp:757-776 | a header is read from the bytes it uses up, whatever is behind them |
| FrameParser.ReconnectedTracks | libs/actor/src/socket.cpp:794-847 | with an empty cache, the receiver tracks the frames of a new connection behind those delivered before |
| FrameParser.Reconnect | libs/actor/src/socket.cpp:425-456 | it then delivers all of them, if they end inside the cache from where its start was left |
| Deliveries.PackArrives | libs/actor/src/socket.cpp:134-144 | a message with its tag pushed, framed, parsed and popped is the message and tag that were sent, and what follows on the stream is untouched |
| Deliveries.Transfer | libs/actor/src/socket.cpp:351-387 | all frames sent over a fresh connection, through the double-buffered sender, any chopping of the stream and the receive cache, are received in order and unchanged |
| Deliveries.Outlet.Send | libs/actor/src/socket.cpp:351-370 | messages go out in the order sent; those sent without a connection wait for the next send after there is one |
| Deliveries.Outlet.SendMsg | libs/actor/src/socket.cpp:372-387 | header and body are handed to the sender as one frame, and the header fits its local buffer |
| Deliveries.Outlet.Connect | libs/actor/src/socket.cpp:840-845 | the login message of a new connection goes out behind the messages that waited |
| Deliveries.Outlet.OnNetErr | libs/actor/src/socket.cpp:697-700 | a break drops what waited |
| SocketLinks.StraightIsAddsMinusRemoves | libs/actor/src/socket.cpp:641-663 | a straight pair is recorded if and only if some add of it has been followed by no removal and no break |
| SocketLinks.RouterKeepsFirstAdd | libs/actor/src/socket.cpp:665-695 | a router pair is recorded with the socket of its first add since it was last taken out |
| SocketLinks.Socket.AddRouterLink | libs/actor/src/socket.cpp:665-673 | both tables stay what the events make of them |
| SocketLinks.Socket.AddStraightLink | libs/actor/src/socket.cpp:641-649 | the same for straight links |
| SocketLinks.Socket.RemoveStraightLink | libs/actor/src/socket.cpp:651-663 | the same for their removal |
| SocketLinks.Socket.RemoveRouterLink | libs/actor/src/socket.cpp:675-695 | gives back the recorded socket |
| SocketLinks.Socket.LinkIn | libs/actor/src/socket.cpp:146-184 | who is recorded, forwarded or answered for a link request from the network |
| SocketLinks.Socket.ExitIn | libs/actor/src/socket.cpp:185-203 | an exit from the network goes the way its link came and is no longer recorded; in a router, the assertion of line 190 fails if and only if the pair is not recorded |
| SocketLinks.Socket.HandleRecv | libs/actor/src/socket.cpp:596-639 | what is recorded and what travels for a pack on its way out; of what comes after the end of the socket, exactly the links and requests that started here and are no error returns are answered |
| SocketLinks.Socket.OnNetErr | libs/actor/src/socket.cpp:697-739 | a break sends exactly one exit for every recorded pair, to its source or through its socket, and leaves both tables empty |
| SocketLinks.Socket.StraightErrors | libs/actor/src/socket.cpp:710-722 | one exit for each straight pair, in whatever order the maps are walked |
| SocketLinks.Socket.RouterErrors | libs/actor/src/socket.cpp:725-737 | one forwarded exit for each router pair, through its socket |
| SocketLinks.Socket.FreeSelf | libs/actor/src/socket.cpp:908-940 | whichever way the coroutine ends, one exit for every recorded pair goes out under the old identifier, and both tables are empty for the next use |
| SocketLinks.Socket.Use | libs/actor/src/socket.cpp:399-554 | over a whole use of a socket, with any events and any end, each recording of a pair is taken out by one exit or reported by one exit, and those sent at the end are exactly the pairs that the inputs leave recorded |
| SocketLinks.Socket.Handle | libs/actor/src/socket.cpp:134-203 | each input is to the tables the one event it means, or none |
| SocketLinks.RecordedByInputs | libs/actor/src/socket.cpp:641-663 | a straight pair is recorded if and only if some input linked the two and neither has exited since nor the connection broken |
| SocketLinks.PassedByInputs | libs/actor/src/socket.cpp:665-695 | a router pair is recorded with the socket of the first link passed on since it was last taken out |
| SocketLinks.EachIsSettledOnce | libs/actor/src/socket.cpp:641-739 | each recording of a pair ends by one passing of its own exit or by one report, or lasts |
| SocketLinks.BreakTells | libs/actor/src/socket.cpp:697-739 | a break reports each pair that is recorded once, and leaves none |
| SocketLinks.CrossingExits | libs/actor/src/socket.cpp:185-194 | linked actors behind a router that exit at the same time make its assertion fail |
| SocketLinks.ForwardedLinkIsLost | libs/actor/src/socket.cpp:596-639 | a forwarded link to a socket that has ended is dropped and stays recorded where it came from |
| TcpSender.Sender.Send | libs/actor/src/impl/tcp/socket.cpp:61-77 | appends to the standby buffer, never touches the one in flight, and starts a write when there is none |
| TcpSender.Sender.EndSend | libs/actor/src/impl/tcp/socket.cpp:150-171 | moves the buffer in flight to the wire and starts the next, or shuts a closing socket |
| TcpSender.Sender.Close | libs/actor/src/impl/tcp/socket.cpp:100-107 | shuts the socket only when nothing is being written |
| TcpSender.Sender.BeginSend | libs/actor/src/impl/tcp/socket.cpp:131-148 | the two buffers change places |
| TcpSender.Sender.WaitEnd | libs/actor/src/impl/tcp/socket.cpp:109-118 | a caller waits exactly while a write is under way, and nothing more is taken on |
| TcpSender.Sender.Drain | libs/actor/src/impl/tcp/socket.cpp:131-171 | once sends stop, at most two writes put everything on the wire, a closing socket is shut, and a waiter is released if and only if the last write ends on a closed socket |
| TcpSender.EarlyWaiterIsForgotten | libs/actor/src/impl/tcp/socket.cpp:109-118 | a sequence of calls, which the program does not make, that leaves a waiter waiting |
| FreeLists.ChainIsAcyclic | gce/detail/freelist.hpp:99-120 | a list that ends meets no object twice |
| FreeLists.FreeList.Get | gce/detail/freelist.hpp:81-97 | an unlinked object that is not handed out already: the first pooled one, which the pool then no longer has, or a new one |
| FreeLists.FreeList.Free | gce/detail/freelist.hpp:99-120 | each object of a chain of handed out ones is cleaned once, and kept in front of the pool up to its room or destroyed; pooled and handed out objects stay apart |
| FreeLists.FreeList.FreeOne | gce/detail/freelist.hpp:104-116 | one object is cleaned, and kept or destroyed |
| FreeLists.FreeList.Reserve | gce/detail/freelist.hpp:133-157 | links as many new objects as asked for |
| FreeLists.FreeList.ClearPool | gce/detail/freelist.hpp:159-171 | destroys every pooled object and ends by list length |
| CachePools.EachOnce | libs/actor/src/cache_pool.cpp:225-238 | as many selections as there are sockets return each once and bring the cursor back |
| CachePools.SelectionsRotate | libs/actor/src/cache_pool.cpp:225-238 | selections go round from the cursor |
| CachePools.ConnTable.Register | libs/actor/src/cache_pool.cpp:160-175 | adds the socket to its context and to no other; the cursor stays on the socket it was on |
| CachePools.ConnTable.AddContext | libs/actor/src/cache_pool.cpp:162-174 | a new context goes to its place in the order, and the cursor stays on its context |
| CachePools.ConnTable.AddSocket | libs/actor/src/cache_pool.cpp:164-169 | a new socket goes to its place in the order, and the cursor stays on its socket |
| CachePools.ConnTable.Deregister | libs/actor/src/cache_pool.cpp:357-366 | removes the socket and sets the cursor to the first |
| CachePools.ConnTable.Take | libs/actor/src/cache_pool.cpp:225-238 | the socket under the cursor, which moves on and wraps |
| CachePools.ConnTable.Select | libs/actor/src/cache_pool.cpp:188-241 | gives the socket under the cursor, a registered one, if and only if the context has any |
| CachePools.ConnTable.SelectAny | libs/actor/src/cache_pool.cpp:203-238 | gives a socket if and only if the context whose turn it is has any, and moves on |
| CachePools.ConnTable.SelectRound | libs/actor/src/cache_pool.cpp:188-241 | a round of selections returns each registered socket once |
| CachePools.CachePool.RegisterSocket | libs/actor/src/cache_pool.cpp:126-176 | a connection, a joined connection or a router is registered each with its own table, for its context, and nothing else changes |
| CachePools.CachePool.DeregisterSocket | libs/actor/src/cache_pool.cpp:335-367 | it is taken out of that table, and nothing else changes |
| CachePools.CachePool.SelectSocket | libs/actor/src/cache_pool.cpp:178-186 | a socket of the asked context, or of the one whose turn it is, if that has one, and otherwise of the router whose turn it is; what is registered stays |
| CachePools.CachePool.SelectJointSocket | libs/actor/src/cache_pool.cpp:243-296 | a joined connection of the asked context, or of the one whose turn it is |
| CachePools.ConnectedIsSelected | libs/actor/src/cache_pool.cpp:126-241 | after a connection is registered, a selection for its context finds one of this context |
| CachePools.JoinedIsSelected | libs/actor/src/cache_pool.cpp:126-296 | so for a joined connection and the selection of where to pass packs on |
| CachePools.OnlyRouterIsSelected | libs/actor/src/cache_pool.cpp:126-333 | the only router is what a selection finds where there is no connection, and a joined connection is not |
| Atoms.NameRoundTrips | gce/actor/atom.hpp:21-81 | a name of up to 14 characters comes back in lower case if and only if its value fits 64 bits, as up to 13 characters always do |
| Atoms.PackedIsInjective | gce/actor/atom.hpp:21-63 | names that fit and pack alike differ only in case |
| Atoms.Pack | gce/actor/atom.hpp:21-63 | the loop computes the packed value, with its wrap-around and its zero for other characters or lengths |
| Atoms.Unpack | gce/actor/atom.hpp:66-81 | at most 14 characters are written, inside the local buffer, for every 64-bit number |
| Atoms.ReservedNames | gce/actor/message.hpp:40-46 | the constants used by the other modules are the packed forms of the names in the source |
| Atoms.LongNamesDoNotComeBack | gce/actor/config.hpp:76 | the exit and response numbers do not unpack to their names |

## Left out

- Boost.Asio, coroutines, strands, timers, DNS and TCP calls: they are events or parameters, and a strand is a sequence of atomic steps.
- Memory orders: all steps are sequentially consistent. Index, incarnation and request counters do not wrap.
- Exceptions from allocation, and the scope guard that undoes a failed mailbox push.
- List and deque nodes of the mailbox and the pack queue are named by unique numbers and addresses instead of being linked objects.
- LinkProtocol.StepInv: local actors only; between a stackless actor's two halves of death the model lets it do nothing of its own; a stackful actor that throws before it first waits never runs its death step in the source, and the model has no such actor.
- ThreadActors.ThreadActor.HandleRecv: a response wait is retried only when a response arrives, as in the source, so an exit notice that arrives during the wait does not end it; only the timer or a response does.
- CoroutineActors.StackfulActor.HandleRecv: what user code does once it goes on is the next call of the model; stopping and context switching are not modelled here, and deaths are steps of LinkProtocol.
- Eight-bit integers, floats, wide strings, error codes and time points, and big-endian byte order; the model is little-endian with 64-bit sizes.
- Tags.PopTag: nothing is promised about blocks that no sender writes.
- FrameParser.Receiver.ParseMessage: nothing is promised about headers that no sender writes.
- Messages.Message.AppendChars: the characters are an argument by value; a reference into the message's own bytes is not modelled.
- SocketLinks.Socket.OnNetErr: the sends are treated as asynchronous, so no table changes while it is walked.
- SocketLinks.Socket.Use: says nothing about what follows a failed assertion, where it stops.
- TcpSender.Sender.Send: not described once the socket is shut, where the write would fail; connecting again and resetting are not modelled.
- FreeLists.FreeList.Free: that a returned chain consists of objects that are handed out is the caller's duty.
- Joint, straight and router tables of the cache pool have the same code and are one class; acceptors, services and the context start-up around them are not modelled.
- Template facades, heartbeats, examples and tests of the repository.
