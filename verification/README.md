# Allium, modelled and proved

Allium is a header-only C++11 OpenFlow controller. This project models the parts of it whose
correctness is least obvious from reading one function, and proves what they promise:

* **Transactions** (`TransactionKeys`, `Transactions`, `TransactionTheorems`, `TransactionLifeCycle`,
  `TransactionDecorator`, `MessageStorage`). Asynchronous requests are paired with replies and
  errors through a map from packed 64-bit keys to weak pointers. The model is a step system: a step
  is a handler on the strand, a critical section of the registry's mutex, the expiry of a timer, or
  the release of the last reference, and any number of transactions and waits interleave freely.
  An invariant over every reachable state gives downcast and storage safety, the absence of lost
  wakeups and of lost messages, at most one completion per receive, and an exact description of the
  registry; what any step makes of any one transaction, task or wait is stated from their side.
* **The barrier client** (`Barrier`, `BarrierRun`). The coroutine that sends flow_add, barrier_request and, if no
  error came, packet_out is run against a switch and an in-order channel, with arbitrary other
  activity on the same decorator.
* **Connection set-up and the message loop** (`SetupConnection`, `SetupTheorems`, `SetupObject`,
  `Versions`, `MessageLoop`). A handshake with generation-numbered timeouts, version negotiation,
  and a length-prefixed framer that does not depend on how the stream is cut into reads.
* **The packet walk** (`Bytes`, `PacketParser`, `ParserBounds`, `HeaderOrder`, `PacketRoundTrip`)
  and its users: OpenFlow 1.3 matches (`OxmMatch`), OpenFlow 1.0 matches (`V10Match`), the copies
  both make of ARP addresses (`AddressCopies`), and LLDP frames (`Lldp`). The mutually recursive, callback-driven walk is shown equal to a callback-free
  header chain cut at the first refusal, and is the inverse of a serialiser written from the RFCs.
  Serialised packets carry IP with TCP, UDP, ICMP, neighbour discovery or anything else, whole or in
  fragments, or ARP, or data of an unknown type, behind any stack of VLAN tags.
* **Smaller cores**: the aging forwarding database (`ForwardingDb`), and index sequences with the
  order in which decorators see a message (`Dispatch`). `Common` holds what several modules share.

Code that changes state in place is a class whose methods are proved equal to the step functions
(`TransactionDecorator`, `SetupObject`, `MessageStorage.MessagePool`), or to their own
specification (`MessageLoop.Reader`, `Versions`, `ForwardingDb.Database`, `MessageStorage.Message`,
`OxmMatch`, `V10Match`, `Lldp`). The theorems about runs are lemmas about those functions, and the
methods that carry out any step, or any number of them, in place are proved equal to the runs.

## What turned out not to hold

Each of these is stated in the project as a theorem about the code as it is.

* `oxm_match_from_packet` always returns an empty match: `for_each_header` takes its function
  object by value, so a copy of the creator collects the fields
  (`OxmMatch.OxmMatchFromPacket`). That is right exactly for frames without an Ethernet header to
  follow; a packet whose fields are lost is in `OxmMatch.FieldsAreLost`. The coherence theorems are
  about the copy.
* Both match creators copy ARP addresses of whatever length into arrays of four and six octets. All
  copies stay in their arrays if and only if no ARP header declares protocol addresses of more than
  four octets or, for 1.3 and Ethernet, hardware addresses of more than six
  (`AddressCopies.CopiesFitIff`; messages that write past an array in
  `AddressCopies.LongProtocolAddress` and `AddressCopies.LongHardwareAddress`). Shorter ones are
  filled up with zeros, so the fields are the packet's own only at exactly these lengths
  (`OxmMatch.SerialisedPacketFields`).
* The lists of extension headers hold 46 where the fragment header is 44
  (`OxmMatch.ProtoFieldRightIff`). Hence the conditions in
  `OxmMatch.NoFieldRepeatedIff` and `OxmMatch.PortPrerequisitesIff`, and the packets that fail in
  `OxmMatch.FragmentRepeatsProto` and `OxmMatch.AuthenticationHidesProto`. Stacked VLAN tags repeat
  fields too (`OxmMatch.StackedTagsRepeatFields`).
* The link-layer address accessors of neighbour discovery messages return all that is behind the
  target, which is a list of options and never as long as an address; so the 1.3 creator's test for
  six octets fails, and `ipv6_nd_sll` and `ipv6_nd_tll` are never pushed for a well-formed message
  (`OxmMatch.LinkLayerAddressIsNeverPushed`, `OxmMatch.SerialisedPacketFields`, with a solicitation
  that loses its address in `OxmMatch.SolicitationLosesAddress`).
* The fragment offset of IPv6 is never looked at: what a later fragment carries is taken for a header
  unless its protocol is one the walk does not know (`HeaderOrder.Ipv6FragmentIsPayloadIff`). Later
  fragments of IPv4 are handed out as they are (`PacketRoundTrip.LaterFragmentsArePayload`).
* `ipv6_header::end` compares the window with the payload length alone, so a header that declares up
  to 39 octets too many makes the walk leave the frame, exactly if anything follows it
  (`ParserBounds.InBoundsUnlessIpv6Overruns`, with a frame that does it in
  `ParserBounds.OverrunLeavesTheFrame`).
* IPv4, extension, authentication and TCP headers are handed out before their length fields are
  checked, so their payload can start, and authentication data end, outside the frame. Apart from
  overrunning IPv6 headers only the last header handed out can do so
  (`ParserBounds.OnlyTheLastLengthCanLeave`, `ParserBounds.AuthenticationDataIff`, and a frame in
  `ParserBounds.AuthenticationDataLeaveTheFrame`).
* Three accessors are off: the VLAN priority and the IPv6 ECN are shifted by the wrong number of
  bits, and the ARP operation is read at offset 3. All else is read right, and these are if and only
  if other bits of the packet happen to agree (`PacketRoundTrip.SerialiseThenParse`, on any octets
  `PacketRoundTrip.PriorityRightIff`, `PacketRoundTrip.EcnRightIff` and
  `PacketRoundTrip.OperationRightIff`; packets that are misread in
  `PacketRoundTrip.PriorityAndEcnMisread` and `PacketRoundTrip.OperationMisread`). The match fields
  inherit it (`OxmMatch.SerialisedPacketFields`).
* `handle_read` does not end exactly when it reaches a message of length zero; lengths from 1 to 7
  are cut without trouble (`MessageLoop.EndsIffAdvances`, `MessageLoop.ZeroLengthNeverEnds`).
* LLDP ids of more than 510 octets lose the upper bits of their length
  (`Lldp.LldpFrameRoundTrip`, `Lldp.LongIdIsLost`).
* `emplace` does not overwrite, and a destructor erases by key. So registering a request makes the
  registry inexact exactly if a registered transaction has the key, and a destructor does exactly if
  its own entry was extracted with no message set and the key has been registered since
  (`TransactionTheorems.ExactStepIff`, over runs `TransactionTheorems.ExactThroughoutIff`; a run of
  either kind in `TransactionTheorems.ReuseLosesATransaction` and
  `TransactionTheorems.LateDestructorLosesATransaction`). The key of an answered transaction can be
  registered again while that transaction lives.
* An error for a multipart reply that was sent as a request is looked up with multipart type 0
  (`TransactionKeys.ErrorFindsItsRequest`, `TransactionKeys.ReplySentAsRequestIsNotFound`).
* A channel can be started on a socket that a timeout has closed. When the last read has succeeded
  and its handler is queued, the socket is closed if and only if the present stage's timeout has run,
  which it can only have done since the success
  (`SetupTheorems.ChannelSocketIsOpenUnlessLate`, `SetupTheorems.SuccessComesBeforeTheTimeout`, with
  a run in `SetupTheorems.LateTimeoutClosesAChannel`).

## Assumptions

* The unseen message classes have the standard layout: an 8-octet header with type, length and
  transaction id at offsets 1, 2 and 4, and the multipart type at offset 8
  (sections A.1 and A.3.5 of the OpenFlow Switch Specification 1.3.0). How a hello is searched for a
  version is a parameter; where two endpoints are compared, a version is supported if its bit is
  set (section A.5.1 of the OpenFlow Switch Specification 1.3.1).
* Registry exactness and routing are stated for runs of harmless steps, as just described; it is
  enough that no key is registered while a transaction with that key lives unanswered. Downcast
  safety, set-at-most-once, and everything about waits need no such condition.
* The barrier theorem assumes an in-order channel, a switch that decides all requests before a
  barrier and reports their errors before it answers the barrier (section 6.2 of the OpenFlow Switch
  Specification 1.3.0), and errors that carry the failed request's header. Others may do on the same
  decorator what they like, reuse of their own keys included; of the client's two keys it assumes
  that neither is registered while a transaction with that key lives unanswered, and that, while the
  client's own transactions await their messages, no messages but the switch's to them carry these
  keys. It also takes for granted that storing an error in the flow_add's transaction is harmless,
  which `MessageStorage.RoomForMessages` makes a matter of the error's size.
* Asio is modelled by its promises: handlers wrapped in a strand run one at a time; cancelling or
  re-arming a timer queues its armed waits with operation_aborted; a wait whose expiry is already
  queued is not recalled; a read that does not fail has transferred what its completion condition
  asks for; and operations on a closed socket fail.

## Model

| member | source | states |
|---|---|---|
| `TransactionKeys.ToKeyInjective` | examples/v13/transaction_controller/transaction_decorator.hpp:252-261 | the 16/16/32-bit packing fits 64 bits and is injective: two keys are equal if and only if type, multipart type and transaction id are |
| `TransactionKeys.TraitsInvertEachOther` | examples/v13/transaction_controller/transaction_decorator.hpp:40-219 | a class is the reply type of a request exactly when that request is its request type |
| `TransactionKeys.KeyDeterminesClass` | examples/v13/transaction_controller/transaction_decorator.hpp:750-761 | the key looked up for a reply is a registered request's key exactly when that request is of the reply's request class and has its transaction id |
| `TransactionKeys.ErrorFindsItsRequest` | examples/v13/transaction_controller/transaction_decorator.hpp:763-785 | an error carrying the first n octets of a request leads to the key it was registered under exactly when n covers the header, and the multipart header of a multipart request (and, for a multipart reply sent as a request, its multipart type is 0) |
| `TransactionKeys.ErrorNamesRequest` | examples/v13/transaction_controller/transaction_decorator.hpp:763-785 | an error leads to the key of a request exactly if its data start with that request's type and transaction id and, for a multipart request, its multipart type |
| `TransactionKeys.ReplyTypes` | examples/v13/transaction_controller/transaction_decorator.hpp:40-219 | the type numbers tie the traits to the protocol: every reply class has the type after that of its request class, and the same multipart type |
| `TransactionKeys.ReplySentAsRequestIsNotFound` | examples/v13/transaction_controller/transaction_decorator.hpp:773-784 | a multipart reply of type 1, sent as a request, whose error is looked up under another key |
| `Transactions.ExtractedFits` | examples/v13/transaction_controller/transaction_decorator.hpp:730-761 | the transaction an incoming message extracts still exists, has never been set, has no set task posted, and was created for exactly the request type of the reply |
| `Transactions.StepKeeps` | examples/v13/transaction_controller/transaction_decorator.hpp:526-785 | every step of every interleaving keeps the invariant over registry, transactions, set tasks, waits and completions |
| `Transactions.RunKeeps` | examples/v13/transaction_controller/transaction_decorator.hpp:526-785 | the invariant holds after every run |
| `TransactionTheorems.NoLostWakeup` | examples/v13/transaction_controller/transaction_decorator.hpp:554-572 | in every reachable state a transaction holding a message has no wait armed on its timer, and no transaction has two armed waits |
| `TransactionTheorems.StoredWaitsCanComplete` | examples/v13/transaction_controller/transaction_decorator.hpp:526-572 | in every reachable state every outstanding wait of a transaction with a message has a step of its own to take, and one or two such steps complete it with that message |
| `TransactionTheorems.EveryReceiveCompletesAtMostOnce` | examples/v13/transaction_controller/transaction_decorator.hpp:526-551 | no receive completes twice, a wait is completed exactly when its completion is on record, and issued equals outstanding plus completed |
| `TransactionTheorems.CompletionsOfStep` | examples/v13/transaction_controller/transaction_decorator.hpp:347-355 | a step only appends completions; one is empty only if no message is stored when its handler runs, and otherwise hands over the stored response |
| `TransactionTheorems.StoredStays` | examples/v13/transaction_controller/message.hpp:178-186 | a response once stored stays stored and stays the same, moves out of it included |
| `TransactionTheorems.StoredIsDelivered` | examples/v13/transaction_controller/transaction_decorator.hpp:347-355 | from the moment a response is stored, every wait of its transaction that still completes, in any continuation, is given that response, even if its timer had expired before |
| `TransactionTheorems.ContentsDeliveredOnce` | examples/v13/transaction_controller/transaction_decorator.hpp:561-564 | of all receives of one transaction at most one is given the contents unmoved |
| `TransactionTheorems.SettingIsSafe` | examples/v13/transaction_controller/transaction_decorator.hpp:608-622 | whenever a message is set, in any run and even with key reuse, the transaction exists, its storage is empty and the downcast is right; no transaction is set twice |
| `TransactionTheorems.RegistryRefinesLiveTransactions` | examples/v13/transaction_controller/transaction_decorator.hpp:713-728 | in every run of harmless steps, and so in every run without reuse of a live, unanswered transaction's key, the map's domain is exactly the keys of transactions neither destroyed nor extracted, each mapped to its transaction |
| `TransactionTheorems.ExactRegisterIff` | examples/v13/transaction_controller/transaction_decorator.hpp:717-727 | registering keeps the registry exact if and only if no registered transaction has the key |
| `TransactionTheorems.ExactDestructIff` | examples/v13/transaction_controller/transaction_decorator.hpp:683-695 | destroying keeps it exact if and only if the destructor does not find another transaction's entry under its key |
| `TransactionTheorems.ExactStepIff` | examples/v13/transaction_controller/transaction_decorator.hpp:526-785 | exactly the steps that are harmless in this sense keep an exact registry exact; all other kinds of step always do |
| `TransactionTheorems.ExactThroughoutIff` | examples/v13/transaction_controller/transaction_decorator.hpp:526-785 | the registry is exact all along a run if and only if all its steps are harmless |
| `TransactionTheorems.EveryMessageIsRoutedOnce` | examples/v13/transaction_controller/transaction_decorator.hpp:625-663 | in every run of harmless steps a reply goes to the one registered transaction of its own request class and id, an error to the one whose request it carries the header of, and either to the next decorator if there is none: never both, never neither |
| `TransactionTheorems.ReuseLosesATransaction` | examples/v13/transaction_controller/transaction_decorator.hpp:713-728 | the failing case of registration: a run that reuses a registered transaction's key, after which a live, unanswered transaction is not registered |
| `TransactionTheorems.LateDestructorLosesATransaction` | examples/v13/transaction_controller/transaction_decorator.hpp:683-695 | the failing case of destruction: a reply comes between the last release and the destructor, and the key is registered in between |
| `TransactionLifeCycle.EveryMessageIsHeld` | examples/v13/transaction_controller/transaction_decorator.hpp:625-663 | in every reachable state each message that went to a transaction is stored there with its own kind and contents, or held by exactly one posted task for it; no transaction is sent two messages, and nothing is stored or posted that did not come |
| `TransactionLifeCycle.PostedIsStored` | examples/v13/transaction_controller/transaction_decorator.hpp:636-636 | a posted task can be run at any time and stores just what it holds, in its own transaction, and touches no other |
| `TransactionLifeCycle.RoutedCanBeReceived` | examples/v13/transaction_controller/transaction_decorator.hpp:526-663 | in every reachable state every outstanding wait of the transaction a message went to can be completed with that message's kind and contents by at most three steps of its own |
| `TransactionLifeCycle.EmptyWaitsCanTimeOut` | examples/v13/transaction_controller/transaction_decorator.hpp:526-572 | in every reachable state every outstanding wait of a transaction without a message can be completed empty by the expiry of its timer, aborted exactly if it had been before |
| `TransactionLifeCycle.TransactionLifeCycle` | examples/v13/transaction_controller/transaction_decorator.hpp:526-785 | what any step makes of any transaction: it is filled once, by an arrival on the strand or its posted task and by nothing else, its contents go to the first wait to look, it is extracted by a lookup of its entry and ended by its owner and destructor alone |
| `TransactionLifeCycle.DestroyedIff` | examples/v13/transaction_controller/transaction_decorator.hpp:524-606 | the destructor can run exactly when the owner, all waits not yet handed a result and all set tasks have let go |
| `TransactionLifeCycle.WaitLifeCycle` | examples/v13/transaction_controller/transaction_decorator.hpp:526-572 | what any step makes of any wait: only its own timer expires it, only its transaction's message or a newer wait of it aborts it, only its own handlers complete it, with the message if there is one by then |
| `TransactionLifeCycle.TaskLifeCycle` | examples/v13/transaction_controller/transaction_decorator.hpp:625-663 | what any step makes of any posted task: it comes from a message that arrived off the strand for its transaction, holds that message, and lasts until it is run |
| `TransactionLifeCycle.EntryLifeCycle` | examples/v13/transaction_controller/transaction_decorator.hpp:683-748 | what any step makes of any entry of the map: emplace makes one or leaves the one that is there, a destructor without a message and every lookup take the one under their key, and nothing else changes any |
| `TransactionLifeCycle.RoutesOfStep` | examples/v13/transaction_controller/transaction_decorator.hpp:625-663 | every arrival is logged once, and no other step logs anything |
| `TransactionDecorator.Decorator.Register` | examples/v13/transaction_controller/transaction_decorator.hpp:713-728 | registration in place: a new transaction, and an entry only if the key is free |
| `TransactionDecorator.Decorator.Destroy` | examples/v13/transaction_controller/transaction_decorator.hpp:683-695 | the destructor in place: the key is erased unless a message was stored |
| `TransactionDecorator.Decorator.Set` | examples/v13/transaction_controller/transaction_decorator.hpp:608-622 | the message is stored, with no taker, and the armed waits are queued as aborted |
| `TransactionDecorator.Decorator.StartAsyncWait` | examples/v13/transaction_controller/transaction_decorator.hpp:554-572 | a stored message is bound to the wait, otherwise the timer is re-armed and earlier waits are aborted |
| `TransactionDecorator.Decorator.AsyncReceiveResponse` | examples/v13/transaction_controller/transaction_decorator.hpp:526-551 | waiting starts at once on the strand and is posted otherwise |
| `TransactionDecorator.Decorator.WaitHandler` | examples/v13/transaction_controller/transaction_decorator.hpp:347-355 | the handler completes its wait with the message if there is one by now, else with the timer's error code |
| `TransactionDecorator.Decorator.Extract` | examples/v13/transaction_controller/transaction_decorator.hpp:730-748 | the entry is erased whether or not its weak pointer can be locked |
| `TransactionDecorator.Decorator.Handle` | examples/v13/transaction_controller/transaction_decorator.hpp:625-663 | a message is set at once on the strand, posted as a task elsewhere, or forwarded; that it is never lost on the way is `TransactionLifeCycle.EveryMessageIsHeld` |
| `TransactionDecorator.Decorator.RunTask` | examples/v13/transaction_controller/transaction_decorator.hpp:636-636 | the posted task sets its message |
| `TransactionDecorator.Decorator.Perform` | examples/v13/transaction_controller/transaction_decorator.hpp:526-785 | any step, carried out in place by the methods above, has the effect of the model's step |
| `TransactionDecorator.Decorator.PerformAll` | examples/v13/transaction_controller/transaction_decorator.hpp:526-785 | any run carried out in place ends in the model's state, with the invariant |
| `Barrier.MoveKeeps` | examples/v13/transaction_controller/transaction_controller.cpp:79-119 | every move of client, switch, channel or anyone else keeps the two transactions in step with what has been sent and delivered; others may reuse keys as long as the client's two are left alone while unanswered |
| `Barrier.FlowResultIsRight` | examples/v13/transaction_controller/transaction_controller.cpp:105-112 | the zero-timeout wait is never cut short and ends with a message just if the flow_add was rejected |
| `Barrier.PacketOutOnlyWithoutError` | examples/v13/transaction_controller/transaction_controller.cpp:79-119 | in every interleaving packet_out is sent only if no write failed, the flow_add was accepted, no error for it is ever among what was sent, and the switch answered the barrier instead of refusing it; the zero-timeout wait sees the error exactly when one was sent |
| `BarrierRun.PacketOutCanHappen` | examples/v13/transaction_controller/transaction_controller.cpp:79-119 | the assumptions can be met: a run that goes all the way to the packet_out |
| `MessageStorage.Message.CopyOf` | examples/v13/transaction_controller/message.hpp:94-98 | a copy has the other's tag and contents and constructs one object if there is one |
| `MessageStorage.Message.MoveOf` | examples/v13/transaction_controller/message.hpp:100-104 | the contents change hands and the other message keeps its tag and a live object |
| `MessageStorage.Message.SetReply` | examples/v13/transaction_controller/message.hpp:150-154 | on empty storage, constructs one reply and tags it |
| `MessageStorage.Message.SetError` | examples/v13/transaction_controller/message.hpp:48-58 | on empty storage, constructs one error and tags it |
| `MessageStorage.Message.Reset` | examples/v13/transaction_controller/message.hpp:157-166 | destroys exactly the object the tag names and leaves the storage empty |
| `MessageStorage.Message.CopyAssign` | examples/v13/transaction_controller/message.hpp:106-117 | the target becomes equal to the other, which is unchanged, also for self-assignment and differing kinds; no object is constructed or destroyed if the kinds are equal |
| `MessageStorage.Message.MoveAssign` | examples/v13/transaction_controller/message.hpp:119-130 | contents are moved between equal kinds and copied between differing ones; the result is one more copy |
| `MessageStorage.MessagePool.Execute` | examples/v13/transaction_controller/message.hpp:83-206 | each command, carried out on the message objects with one shared tally, has exactly the effect on slots and counts that the theorems speak of, the copy returned by move assignment included |
| `MessageStorage.MessagePool.ExecuteAll` | examples/v13/transaction_controller/message.hpp:83-206 | so has any sequence of commands |
| `MessageStorage.LifetimesBalance` | examples/v13/transaction_controller/message.hpp:83-206 | over every sequence of operations the tag names the object in storage, and constructed minus destroyed is the number of non-empty messages |
| `MessageStorage.NothingLeaks` | examples/v13/transaction_controller/message.hpp:89-92 | when all messages are destroyed, all objects are |
| `MessageStorage.MovesAreExclusive` | examples/v13/transaction_controller/message.hpp:100-130 | a moved message's contents are in the new one and no longer in the old one, which keeps its kind; assignment between differing kinds leaves two copies |
| `MessageStorage.RunBalanced` | examples/v13/transaction_controller/message.hpp:83-206 | after any sequence of commands on message objects, tags are right and the tally balances |
| `MessageStorage.RoomForMessages` | examples/v13/transaction_controller/message.hpp:208-314 | the general storage has room for reply and error; that of message<void, Error>, declared as the union trait itself, has room for an error if and only if an error is no larger than a trait object |
| `SetupConnection.StepKeeps` | include/canard/net/ofp/controller/setup_connection.hpp:243-380 | every handler, expiry and completion keeps the invariant over stage, timer, socket and buffer |
| `SetupTheorems.TimeoutsAreOfTheirStage` | include/canard/net/ofp/controller/setup_connection.hpp:76-140 | every timeout that closed the socket did so in the stage it was set for; at most one pending wait is of the present generation, none once the socket is handed over; no timed stage lacks its wait; the generation never exceeds 6 |
| `SetupTheorems.NoTimeoutAfterItsStage` | include/canard/net/ofp/controller/setup_connection.hpp:124-130 | once a stage's completion handler has run, its timeout never closes the socket in any continuation, even if its expiry was already queued |
| `SetupTheorems.ChannelSocketIsOpenUnlessLate` | include/canard/net/ofp/controller/setup_connection.hpp:366-380 | while the handler of a successful read or write is queued, the socket is closed if and only if the present stage's timeout has run; a channel is given the socket as it is then |
| `SetupTheorems.SuccessComesBeforeTheTimeout` | include/canard/net/ofp/controller/setup_connection.hpp:366-380 | that timeout has not run when the read succeeds |
| `SetupTheorems.OnlyTheLastTimeoutIsToBlame` | include/canard/net/ofp/controller/setup_connection.hpp:366-380 | nothing but the last stage's timeout can have closed a channel's socket |
| `SetupTheorems.LateTimeoutClosesAChannel` | include/canard/net/ofp/controller/setup_connection.hpp:366-375 | a run in which that happens |
| `SetupTheorems.SetupConsumesExactlyTheHello` | include/canard/net/ofp/controller/setup_connection.hpp:263-315 | set-up takes from the socket exactly as many octets as the hello's length says and decodes exactly those; the channel has the greatest version both sides support, and the error is sent only if there is none |
| `SetupTheorems.SuccessLeadsOn` | include/canard/net/ofp/controller/setup_connection.hpp:251-349 | in every reachable state, after a successful write or read: a header with type octet 0 and length octets spelling at least 8 is decided on at once or when just the remaining octets are read, any other makes set-up give up; a decided hello leads to a channel for the greatest common version, or to the error if there is none, with the socket untouched |
| `SetupTheorems.FailureGivesUp` | include/canard/net/ofp/controller/setup_connection.hpp:251-314 | after a failed write or read set-up is over and the socket closed, with the reason of its stage |
| `SetupTheorems.EveryHelloIsAnswered` | include/canard/net/ofp/controller/setup_connection.hpp:226-349 | every hello as the protocol writes it, with any elements, can be received whole and leads to that decision on an open socket |
| `SetupTheorems.TimeoutFires` | include/canard/net/ofp/controller/setup_connection.hpp:366-375 | in every reachable state with a stage under way on an open socket, the expiry of the timer closes the socket and changes nothing else |
| `SetupTheorems.OneChannelAtMost` | include/canard/net/ofp/controller/setup_connection.hpp:317-349 | after a channel is started set-up does nothing more, to the socket or otherwise |
| `SetupTheorems.StreamIntegrity` | include/canard/net/ofp/controller/setup_connection.hpp:263-349 | for a stream of a hello, messages and an incomplete tail, however all reads cut it up: set-up takes the hello, the handler is given exactly the messages in order, and the tail stays buffered |
| `SetupTheorems.EncodedStreamIntegrity` | include/canard/net/ofp/controller/setup_connection.hpp:263-349 | the same for what a peer writes, in terms of versions, types, transaction ids and bodies alone: exactly the hello is consumed, exactly the messages are handed on, and the loop never hangs |
| `SetupObject.Setup.ExpiresFromNow` | include/canard/net/ofp/controller/setup_connection.hpp:89-93 | setting the timer aborts what waits on it and starts a new generation |
| `SetupObject.Setup.AsyncWait` | include/canard/net/ofp/controller/setup_connection.hpp:95-116 | a wait remembers the generation it was started in |
| `SetupObject.Setup.CancelConnectionTimeout` | include/canard/net/ofp/controller/setup_connection.hpp:101-105 | cancelling starts a new generation and aborts the armed wait |
| `SetupObject.Setup.TimeoutCheck` | include/canard/net/ofp/controller/setup_connection.hpp:124-130 | a success of another generation is treated as aborted; only a success of the present one closes the socket |
| `SetupObject.Setup.StartSetup` | include/canard/net/ofp/controller/setup_connection.hpp:226-250 | the hello is encoded into the buffer, sent, and the timeout set |
| `SetupObject.Setup.HelloSent` | include/canard/net/ofp/controller/setup_connection.hpp:251-260 | cancel, then give up or receive the header under a new timeout |
| `SetupObject.Setup.HeaderReceived` | include/canard/net/ofp/controller/setup_connection.hpp:268-292 | cancel, then give up, decode a hello of just a header, or receive the rest of the declared length |
| `SetupObject.Setup.ElementsReceived` | include/canard/net/ofp/controller/setup_connection.hpp:306-314 | cancel, then give up or decode header and elements; that this leads to a channel or the error is `SetupTheorems.SuccessLeadsOn` |
| `SetupObject.Setup.ChooseVersion` | include/canard/net/ofp/controller/setup_connection.hpp:339-349 | hand over for the negotiated version, or encode and send the error |
| `SetupObject.Setup.Perform` | include/canard/net/ofp/controller/setup_connection.hpp:226-380 | any step, carried out in place by the methods above, has the effect of the model's step |
| `SetupObject.Setup.PerformAll` | include/canard/net/ofp/controller/setup_connection.hpp:226-380 | any run carried out in place ends in the model's state, with the invariant |
| `Versions.BlocksHoldBits` | include/canard/net/ofp/controller/setup_connection.hpp:161-167 | a version is found in the 32-bit blocks exactly when its bit of the bitset is set |
| `Versions.BitmapCreator.Call` | include/canard/net/ofp/controller/setup_connection.hpp:152-159 | one more bit is set, all others stay, and the bitset grows just enough |
| `Versions.MakeVersionBitmap` | include/canard/net/ofp/controller/setup_connection.hpp:172-179 | bit v of the advertised bitmap is set if and only if v is supported, with no more blocks than needed and 32 bits in each, which determines it |
| `Versions.SortDescends` | include/canard/net/ofp/controller/setup_connection.hpp:53-57 | the versions are offered greatest first, all of them and no others |
| `Versions.ChannelStarter.Call` | include/canard/net/ofp/controller/setup_connection.hpp:319-332 | a channel is started for the first supported version only, and the hello is never looked at once moved away |
| `Versions.StartChannel` | include/canard/net/ofp/controller/setup_connection.hpp:344-348 | for versions in any order, exactly one channel starts, for the greatest one the hello supports; none, and an error, if and only if there is none |
| `Versions.NegotiateIsRight` | include/canard/net/ofp/controller/setup_connection.hpp:317-349 | the first supported version in descending order is the greatest supported one |
| `Versions.EndpointsAgree` | include/canard/net/ofp/controller/setup_connection.hpp:339-349 | two endpoints exchanging their bitmaps choose the same version, the greatest common one, or both fail |
| `MessageLoop.NothingLost` | include/canard/net/ofp/controller/secure_channel_reader.hpp:158-172 | dispatched octets followed by buffered octets are the received octets, and no complete message stays buffered |
| `MessageLoop.FramesOfMessages` | include/canard/net/ofp/controller/secure_channel_reader.hpp:158-171 | any sequence of messages comes back message by message |
| `MessageLoop.FramesOfConcat` | include/canard/net/ofp/controller/secure_channel_reader.hpp:141-153 | cutting a stream as it grows is cutting the remainder together with the new octets |
| `MessageLoop.EndsIffAdvances` | include/canard/net/ofp/controller/secure_channel_reader.hpp:158-171 | the loop ends if and only if it does not reach a message of length zero |
| `MessageLoop.ZeroLengthNeverEnds` | include/canard/net/ofp/controller/secure_channel_reader.hpp:158-171 | a header of length zero keeps the loop going for good |
| `MessageLoop.Reader.Run` | include/canard/net/ofp/controller/secure_channel_reader.hpp:101-131 | the hello is handed on first, and a header is read |
| `MessageLoop.Reader.HandleRead` | include/canard/net/ofp/controller/secure_channel_reader.hpp:155-173 | exactly the complete messages are handed on in order, the rest is kept, and the result is positive and just what the next header or message still lacks |
| `MessageLoop.Reader.OnRead` | include/canard/net/ofp/controller/secure_channel_reader.hpp:141-153 | messages are handed on also on failure, then either a goodbye and no further read, or a read of what is lacking |
| `MessageLoop.RunsAreChunkIndependent` | include/canard/net/ofp/controller/secure_channel_reader.hpp:101-173 | every run is the hello, then the complete messages of all that was received, then at most one goodbye and nothing after it, whatever the chunks; no read waits past the next boundary |
| `MessageLoop.EncodedMessagesArrive` | include/canard/net/ofp/controller/secure_channel_reader.hpp:101-173 | any messages as the protocol writes them, of any lengths up to 65535, and the beginning of one more, however reads cut them up: the loop ends each time, hands on each message whole and in order, and waits for just the octets that are missing |
| `MessageLoop.EncodedLacks` | include/canard/net/ofp/controller/secure_channel_reader.hpp:158-171 | a message of which n octets have come is not complete and lacks the rest of its header or of its length |
| `MessageLoop.StreamsCanCome` | include/canard/net/ofp/controller/secure_channel_reader.hpp:101-153 | every such stream can be received |
| `PacketParser.SuccessorIsSmaller` | include/canard/packet_parser.hpp:1543-1631 | every header leads to a lower layer or a narrower window, so every walk ends |
| `PacketParser.WalkIsTruncatedChain` | include/canard/packet_parser.hpp:1605-1637 | for every frame and every stateful callback, the recursive walk equals offering the callback-free header chain until the first refusal |
| `PacketParser.EarlyStopIsTruncation` | include/canard/packet_parser.hpp:94-116 | the calls are a prefix of the chain, all but the last were answered true, and the chain is cut only right after a refusal |
| `ParserBounds.InBoundsUnlessIpv6Overruns` | include/canard/packet_parser.hpp:846-879 | all fixed-offset fields and payload endpoints lie in the frame if and only if no overrunning IPv6 header is followed by anything |
| `ParserBounds.OverrunLeavesTheFrame` | include/canard/packet_parser.hpp:846-879 | a frame of 62 octets that makes the walk hand out a header beyond it |
| `ParserBounds.FollowedHeadersEndInside` | include/canard/packet_parser.hpp:1543-1556 | a header with a length field that something follows ends in its window |
| `ParserBounds.OnlyTheLastLengthCanLeave` | include/canard/packet_parser.hpp:1098-1111 | without overrunning IPv6 headers, all headers end in the frame by their own length fields if and only if the last one does |
| `ParserBounds.AuthenticationDataIff` | include/canard/packet_parser.hpp:1056-1078 | authentication data are a proper range in the frame exactly if the length octet is at least one and fits |
| `ParserBounds.AuthenticationDataLeaveTheFrame` | include/canard/packet_parser.hpp:1098-1111 | a frame of 66 octets whose authentication header is handed out with data ending far behind it |
| `ParserBounds.OutsideIsNeverRead` | include/canard/packet_parser.hpp:1558-1637 | without such a header the walk depends on the frame's octets alone |
| `ParserBounds.WindowsAreCut` | include/canard/packet_parser.hpp:846-879 | the window a header leaves to the next is what its length field says, cut to its own, with zero saying nothing in IPv6 and UDP; only IPv6 windows are cut too late |
| `ParserBounds.CallbacksAreBounded` | include/canard/packet_parser.hpp:1558-1637 | a frame of n octets makes at most 2 + (n - 14) / 4 callbacks, and none below 14 octets |
| `ParserBounds.BoundIsAttained` | include/canard/packet_parser.hpp:163-176 | stacked VLAN tags attain that bound for every frame size |
| `HeaderOrder.HeadersFollow` | include/canard/packet_parser.hpp:1558-1631 | which header can come right after which, by the type or protocol it names |
| `HeaderOrder.HeadersInOrder` | include/canard/packet_parser.hpp:1558-1631 | headers come in layers; only VLAN tags and extension headers repeat |
| `HeaderOrder.Ipv6FragmentIsPayloadIff` | include/canard/packet_parser.hpp:1558-1602 | what an IPv6 fragment carries, the first or a later one, is handed out as it is if and only if its protocol is none that the walk knows |
| `PacketRoundTrip.TcpRoundTrip` | include/canard/packet_parser.hpp:1346-1359 | a TCP segment with any options and payload is read back, and then exactly its payload |
| `PacketRoundTrip.UdpRoundTrip` | include/canard/packet_parser.hpp:1436-1448 | a UDP datagram is read back, and then exactly its payload, also if its length is zero, exceeds what the packet holds, or falls short of it |
| `PacketRoundTrip.Icmp4RoundTrip` | include/canard/packet_parser.hpp:1485-1541 | an ICMP message is read back with its type, code, checksum and contents, as the class its type and length call for |
| `PacketRoundTrip.Icmp6RoundTrip` | include/canard/packet_parser.hpp:1455-1482 | so is an ICMPv6 message |
| `PacketRoundTrip.NeighborRoundTrip` | include/canard/packet_parser.hpp:1455-1482 | a neighbour solicitation or advertisement is read back with its target; behind it are exactly its options |
| `PacketRoundTrip.DataRoundTrip` | include/canard/packet_parser.hpp:1558-1602 | data of a protocol without a header are handed out as they are, of 59 and 132 not at all |
| `PacketRoundTrip.UnknownRoundTrip` | include/canard/packet_parser.hpp:1605-1631 | data of an unknown ether type are handed out up to the end of the frame |
| `PacketRoundTrip.ExtensionsRoundTrip` | include/canard/packet_parser.hpp:1543-1602 | any chain of extension headers of any legal lengths is read back in order |
| `PacketRoundTrip.V4RoundTrip` | include/canard/packet_parser.hpp:501-541 | an IPv4 packet, whole or a fragment with any offset and flags, is read back, the window ends at its total length, and a later fragment's data are handed out as they are |
| `PacketRoundTrip.V6RoundTrip` | include/canard/packet_parser.hpp:846-879 | an IPv6 packet is read back, the ECN as the accessor shifts it, and the window ends at its payload length |
| `PacketRoundTrip.ArpRoundTrip` | include/canard/packet_parser.hpp:202-280 | an ARP message with addresses of any lengths is read back, the operation as the accessor's offset gives it |
| `PacketRoundTrip.TaggedRoundTrip` | include/canard/packet_parser.hpp:144-176 | any stack of VLAN tags is read back, the priorities as the accessor shifts them |
| `PacketRoundTrip.SerialiseThenParse` | include/canard/packet_parser.hpp:1605-1637 | every abstract packet, padded with anything and lying anywhere, is read back header by header and then exactly its payload, all values its own but for VLAN priority, IPv6 ECN and ARP operation; and these too, if and only if each tag's id spells its priority, the DSCP spells the ECN, or protocol type and address length spell the operation |
| `PacketRoundTrip.LaterFragmentsArePayload` | include/canard/packet_parser.hpp:535-541 | all but the first fragment of an IPv4 packet: the header with its offset and protocol, then exactly the data, whatever they look like, and nothing more |
| `PacketRoundTrip.FirstFragmentsAreParsed` | include/canard/packet_parser.hpp:535-541 | with offset 0 and whatever flags, more-fragments included, the transport header is read |
| `PacketRoundTrip.PriorityRightIff` | include/canard/packet_parser.hpp:145-149 | for any tag in any frame, when the priority is read right |
| `PacketRoundTrip.EcnRightIff` | include/canard/packet_parser.hpp:791-795 | for any IPv6 header in any frame, when the ECN is read right |
| `PacketRoundTrip.OperationRightIff` | include/canard/packet_parser.hpp:232-236 | for any ARP message in any frame, when the operation is read right |
| `PacketRoundTrip.PriorityAndEcnMisread` | include/canard/packet_parser.hpp:145-149 | priority 5 on VLAN 1 is read as 0, and ECN 1 as 0 |
| `PacketRoundTrip.OperationMisread` | include/canard/packet_parser.hpp:232-236 | the operation of an ARP request for IPv4 over Ethernet is read as 6 |
| `PacketRoundTrip.ContinuingCallbackSeesEverything` | include/canard/packet_parser.hpp:1633-1637 | the same for the walk with any callback that always continues |
| `OxmMatch.OxmMatchCreator.Call` | examples/v13/oxm_match_creator.hpp:14-178 | each overload pushes exactly its fields in order and continues; ARP addresses go through arrays of four and six octets, and whether a copy left its array is recorded |
| `OxmMatch.ProtoFieldRightIff` | examples/v13/oxm_match_creator.hpp:77-86 | the protocol is pushed for all types but those of IPv6 extension headers, exactly but for 44, which is pushed, and 46, which is not |
| `AddressCopies.CopyInto` | examples/v13/oxm_match_creator.hpp:14-31 | a copy into a zeroed array: filled up with zeros if shorter, cut off if longer, and whether it stayed inside |
| `AddressCopies.CopiesFitIff` | include/canard/packet_parser.hpp:268-281 | for every frame, all copies stay in their arrays if and only if no ARP header declares longer addresses |
| `AddressCopies.LongProtocolAddress` | examples/v13/oxm_match_creator.hpp:14-22 | an ARP message with five-octet protocol addresses writes past the array, in 1.0 and 1.3 |
| `AddressCopies.LongHardwareAddress` | examples/v13/oxm_match_creator.hpp:24-31 | one with seven-octet hardware addresses does in 1.3 and not in 1.0 |
| `OxmMatch.OxmMatchCreator.Walk` | include/canard/packet_parser.hpp:1558-1637 | calling the creator with one header after the other, until it answers false, leaves the state of the walk, and all copies intact exactly if they all fit |
| `OxmMatch.WalkCopy` | include/canard/packet_parser.hpp:1633-1637 | the walk calls a copy of the creator, which ends up in the walk's state; the creator is untouched |
| `OxmMatch.OxmMatchFromPacket` | examples/v13/oxm_match_creator.hpp:189-196 | the match of every packet is empty, while the copy collects the fields of the whole header chain; that is right if and only if the frame has no Ethernet header to follow; the copies of addresses are safe if and only if no ARP header declares longer ones |
| `OxmMatch.FieldsAreLost` | examples/v13/oxm_match_creator.hpp:189-196 | a packet whose fields are collected and lost |
| `OxmMatch.WalkCollectsAllFields` | examples/v13/oxm_match_creator.hpp:14-178 | the walked creator holds the fields of all headers, in order, ARP addresses as they are copied |
| `OxmMatch.SerialisedPacketFields` | examples/v13/oxm_match_creator.hpp:14-178 | for a serialised packet these are the packet's own values but for VLAN priority, IPv6 ECN, ARP operation, ARP addresses of unusual lengths and a neighbour's link-layer address, which is missing; and these too, if and only if the first three are read right, addresses have exactly four and, for Ethernet, six octets, and no link-layer address option is there |
| `OxmMatch.LinkLayerAddressIsNeverPushed` | examples/v13/oxm_match_creator.hpp:132-156 | no serialised packet makes the creator push ipv6_nd_sll or ipv6_nd_tll |
| `OxmMatch.SolicitationLosesAddress` | examples/v13/oxm_match_creator.hpp:132-143 | a solicitation whose source link-layer address is among its own fields and not among the collected ones |
| `OxmMatch.NoFieldRepeatedIff` | examples/v13/oxm_match_creator.hpp:66-116 | no field kind is repeated if and only if there is at most one VLAN tag and no protocol is announced again behind IPv4 or a fragment-announcing header |
| `OxmMatch.PlainFramesRepeatNoField` | examples/v13/oxm_match_creator.hpp:77-107 | at most one tag, no fragment or authentication header, and no IPv4 protocol of an extension header suffice |
| `OxmMatch.PlainFramesHavePrerequisites` | examples/v13/oxm_match_creator.hpp:77-107 | under the same conditions, tags aside, all port fields have their prerequisites |
| `OxmMatch.FragmentRepeatsProto` | examples/v13/oxm_match_creator.hpp:77-116 | one fragment header in front of UDP pushes ip_proto twice |
| `OxmMatch.AuthenticationHidesProto` | examples/v13/oxm_match_creator.hpp:77-98 | one authentication header in front of UDP leaves the ports without ip_proto |
| `OxmMatch.StackedTagsRepeatFields` | examples/v13/oxm_match_creator.hpp:44-51 | two VLAN tags push the same kinds of field twice |
| `OxmMatch.PortPrerequisitesIff` | examples/v13/oxm_match_creator.hpp:158-172 | port fields come after exactly one ip_proto, the right one, and an IP eth_type, if and only if no port header stands behind an authentication header and no protocol was announced twice |
| `V10Match.V10MatchBuilder.Call` | examples/v10/match_creator.hpp:14-126 | each overload sets exactly its fields and stops at IPv6, its extension headers and ICMPv6; ARP addresses go through arrays of four octets, and whether a copy left its array is recorded |
| `V10Match.V10MatchBuilder.Walk` | include/canard/packet_parser.hpp:1558-1637 | calling the builder with one header after the other, until it answers false, leaves the state of the walk in the referenced match, and all copies intact exactly if those of all headers fit |
| `V10Match.MatchFromPacket` | examples/v10/match_creator.hpp:131-142 | the match holds the ingress port, if there is one, and exactly what the headers up to the first stop set; for a serialised packet, padded anyhow, that is the map built from the packet's own fields; its copies of addresses are safe if and only if no ARP header declares longer ones |
| `V10Match.MatchIsUpToStop` | examples/v10/match_creator.hpp:68-104 | the match holds exactly what the headers up to the first stop set |
| `V10Match.SerialisedPacketMatch` | examples/v10/match_creator.hpp:14-142 | for every serialised packet and ingress port the match is ether addresses, the outer type, the innermost tag, IPv4 addresses and protocol with ports or ICMP type and code, or ARP addresses, each from the packet's field; nothing above the link layer of IPv6 and no ports of later fragments; all but the tag's priority and the ARP addresses are right, and these are if and only if the priority is read right and the addresses have four octets |
| `V10Match.Ipv6SetsNoUpperField` | examples/v10/match_creator.hpp:68-81 | no field above the link layer is ever set for a frame that carries IPv6 |
| `V10Match.IpProtoIffIpv4` | examples/v10/match_creator.hpp:49-57 | ip_proto is set if and only if the header chain has an IPv4 header |
| `Lldp.Container.EncodeId` | include/canard/nabe/lldp.hpp:69-76 | a chassis or port id TLV is appended |
| `Lldp.Container.EncodeTimeToLive` | include/canard/nabe/lldp.hpp:142-148 | a time-to-live TLV is appended |
| `Lldp.Container.EncodePdu` | include/canard/nabe/lldp.hpp:224-230 | the mandatory TLVs, the extra ones in order, and the end marker are appended |
| `Lldp.Container.EncodeFrame` | include/canard/nabe/lldp.hpp:262-272 | header and LLDPDU are appended, then zeros, as many as the container holds by then but at most 64 |
| `Lldp.EtherHeader.Encode` | include/canard/nabe/ether_header.hpp:27-37 | destination, source and type are appended, the type big-endian |
| `Lldp.Encode` | include/canard/nabe/lldp.hpp:254-272 | stacking sets the ether type, and the empty container ends up with exactly the frame and its padding |
| `Lldp.PduRoundTrip` | include/canard/packet_parser.hpp:298-361 | the accessors return the original subtypes, ids and time to live if and only if both ids are at most 510 octets long |
| `Lldp.PduIsCutIntoItsTlvs` | include/canard/nabe/lldp.hpp:39-44 | cut by seven bits of type and nine of length, an encoded LLDPDU with anything behind it is the TLVs of types 1, 2 and 3 with their contents, the optional ones in order, and the end marker, if and only if both ids are at most 510 octets long |
| `Lldp.LldpFrameRoundTrip` | include/canard/nabe/lldp.hpp:254-272 | walking an encoded frame with anything appended delivers its Ethernet header and one LLDPDU, which reads back under the same condition |
| `Lldp.LongIdIsLost` | include/canard/nabe/lldp.hpp:39-76 | a chassis id of 511 octets does not read back |
| `ForwardingDb.KnownIffLastLearnSurvives` | examples/v13/learning_switch/learning_switch.cpp:43-63 | for every history and any clock, an address maps to p if and only if its last learn said p and no later sweep ran 30 seconds after it or later |
| `ForwardingDb.Database.Learn` | examples/v13/learning_switch/learning_switch.cpp:43-48 | the ordered map is kept ordered and gains or overwrites exactly one entry |
| `ForwardingDb.Database.Get` | examples/v13/learning_switch/learning_switch.cpp:50-55 | the result is p exactly when the history says so |
| `ForwardingDb.Database.EraseExpired` | examples/v13/learning_switch/learning_switch.cpp:60-63 | the erase-while-iterating loop removes exactly the expired entries |
| `Dispatch.MakeCounts` | include/canard/integer_sequence.hpp:26-68 | the halving construction yields 0 to N - 1 in order for every N |
| `Dispatch.DepthIsLogarithmic` | include/canard/integer_sequence.hpp:39-68 | the recursion depth d satisfies 2^(d-1) <= N < 2^d |
| `Dispatch.ForwardersPointDown` | include/canard/net/ofp/controller/decorator.hpp:47-82 | each forwarder's index is the position just below its own decorator |
| `Dispatch.LastToFirst` | include/canard/net/ofp/controller/decorator.hpp:235-245 | a message visits the decorators from last to first, each at most once, stops at the first that does not forward it, and otherwise ends at the handler |
| `Dispatch.WalkIsUnique` | include/canard/net/ofp/controller/decorator.hpp:69-82 | that description determines the visits completely |

## Left out

- Sockets, asio's scheduler, coroutine switching, handler allocation and hook propagation: completions, strand serialisation and timers are steps or parameters.
- The generated message classes and `hello::support`: they are not part of this model; their layout is assumed or a parameter, as said above.
- Shared and weak pointers are transaction numbers with a reference predicate; aliasing of the pointed-to objects is not modelled, and a message's contents are a number.
- The decorator's destructor is modelled with its channel alive; when the channel is gone there is no registry left to erase from.
- MessageStorage: alignment of the storage is not modelled, and its size only as to whether objects fit; exceptions of the stored types' own constructors are left out.
- MessageStorage.Message.MoveAssign: after a move to itself the contents count as moved out, because what a type's own move assignment does then is unspecified.
- `message<void, Error>` (examples/v13/transaction_controller/message.hpp:211-314) is not modelled separately. Besides having no reply it differs in that its copy assignment also returns a copy by value (lines 241-256), that its move assignment moves between differing kinds too (lines 258-273), and that its storage is declared as the trait object itself, without `::type` (line 313), so that placement-new writes past it whenever an error larger than the empty trait is set, as for a failed flow_add (`MessageStorage.RoomForMessages`).
- Barrier: the client's deliveries run on the strand, as the message loop's do; the one-second limit of the barrier wait is an expiry that may come at any time.
- SetupConnection: the buffer a header is read into is taken to have room for one, since it held an encoded hello; the octets a failed read leaves in the buffer are not modelled, since the connection is abandoned; the local error printing is left out.
- Versions.SortDescends: the compile-time sort is a library's; the model sorts by insertion.
- MessageLoop: what a message handler does with a message, including one shorter than a header, and exceptions it throws, are left out; the stream buffer has no maximum size.
- AddressCopies.CopyInto: what lies behind an array, and what becomes of it when a copy goes past the end, is not modelled; the copy's own array keeps the octets it has room for.
- PacketRoundTrip: IPv6 packets with a payload length of zero are among the serialised packets only if nothing is announced to follow, since jumbograms (RFC 2675) are not modelled; the fields of ICMP messages behind the checksum are one string of octets, but for neighbour discovery.
- Lldp: accessors on arbitrary octets are not covered, because `lldpdu::parse` checks no length.
- ForwardingDb: the re-arming of the one-second timer is left out; sweeps may come at any time.
- Dispatch: a decorator that forwards one message more than once is not modelled.
- `examples/v10/transaction_switch`: the same logic as the v13 files with fewer message classes.
- Options, descriptions, logging decorators, thread pools, shared buffers, and the repeater, cbench and table-features examples: formatting and wiring.
