# A verified model of the publish/subscribe broker

The repository is a broker written in C. `server.c` runs one event loop over a poll table: clients connect
over TCP, announce an id, subscribe to topics and unsubscribe from them; every UDP datagram is passed on to
the clients subscribed to its topic. `TCP_client.c` is the client. The broker keeps its clients and its
subscriptions in two doubly linked lists, one of which has a resumable cursor, and its connections in a
poll table whose iterator lives across insertions and removals.

This project models all of that in Dafny, on the heap where the C code works on the heap, and proves what the
program is for: every datagram reaches each connected subscriber once for each of its subscriptions, and
nobody else, in every run.

## Two editions

The code does not do what it is evidently meant to do in several places. Most operations therefore take
an `Edition`. `AsWritten` is the code as it stands; `Repaired` differs from it in the places marked `Repair:` in
the bodies, and nowhere else:

| place | as written | repair |
|---|---|---|
| subscriptions.c:72, TCP_server.c:325 | the cursor is set to NULL once and never put on the head, so no pass finds a subscription | start each pass at the head |
| clients.c:128-133, subscriptions.c:138-143 | removing the tail dereferences a NULL `next`; the new head keeps a stale `prev` | guard both |
| subscriptions.c:126-145 | the cursor may be left on a freed node, once passes do start at the head | move it to the successor |
| TCP_server.c:332-335 | a subscriber that is not connected is a NULL that is dereferenced | skip it |
| TCP_server.c:324-341 | `rc` has no value when nothing was sent | 0 |
| TCP_server.c:130-131 | a packet that claims fewer than 53 bytes leaves behind its own bytes what the last message, of whatever connection, or the heap had there | clear the structure first |
| util.c:30, util.c:47 | after the loop, one more `recv` or `send` of the same buffer | return the count |
| poller.c:48-54 | no check against MAX_CONNECTIONS, and the slot keeps the `revents` of its last occupant | refuse the connection, clear the slot |

For the repaired code the intended properties are proved in full. For the code as written the project proves
exactly when a step does what is intended (`Exactness.AsWrittenMeetsIff`, an equivalence), gives runs from the
start on which it does not (`Witnesses`: a lost datagram, both removals of a tail, a connection served unasked,
a client that takes over the id of another by saying nothing), and proves that it delivers nothing in any run
(`Exactness.AsWrittenNeverDelivers`). Every invariant of the lists, the poll table and the event loop is proved for
both editions.

What a client says is read off its packet alone (`Packets.MessageOf`: the bytes it claims, in a zeroed structure),
never off the server's own buffer. The code as written acts on the buffer. `Refinement.Unmixed` says that this makes
no difference; it is part of the exact condition of a step, and holds of every packet the client of the repository
composes (`Packets.OwnMessageIff`, `Refinement.WholeIsUnmixed`).

What a peer or the keyboard sends can take the code out of defined behaviour in either edition: a message that
claims to be longer than its structure, an id of 10 bytes or more, a subscription without a terminator, without
a topic or with one of 50 bytes or more, a typed word of 5 bytes or more. None of this is repaired. It is a
fault of the model wherever the copy or the scan would happen, and `Exactness.Healthy`, in both equivalences,
says when it does not.

Two more departures of the code from its intent cannot be repaired in one place and are modelled as they are,
in both editions. The packet copy starts at the length field and not behind it, so the last two bytes of every
message are lost (`Packets.PacketRoundTrip`, with the exact condition; what follows for payloads is in
`Payloads`). A FLOAT goes through binary32, which is exact for significands below 2^23 exactly when the exponent
is at most 44 (`Numbers.FloatIsExactIff`); `FloatBounds` has the exact bound for each of these exponents.

## Layout

| file | models |
|---|---|
| Base.dfy | bytes, C strings, editions, sequences without repetition |
| Clients.dfy, Subscriptions.dfy | the two lists as objects: nodes with `prev` and `next`, ghost sequences of what is reachable, of what was created and of what was freed |
| CursorPass.dfy, Passes.dfy | a pass of the cursor over a list that changes under it, and the same pass on the heap |
| Pollers.dfy, PollRound.dfy | the poll table as an array, and the accounting of its iterator |
| Packets.dfy, Payloads.dfy, Scans.dfy | structure layouts, the packet copies, the subscribe text and its scanner |
| Streams.dfy, Senders.dfy | `send_all` and `recv_all` over sockets that move as many bytes as they like; the client's sending side |
| ServerModel.dfy | one step of the event loop as a function on values; runs, and traces of the nested loops |
| Servers.dfy, EventLoop.dfy | the same on the heap: `struct TCP_server` as an object, `run_server` with its loops |
| Broker.dfy | the abstract broker: a map from descriptors to peers, a count for each topic and id |
| Invariant.dfy, Refinement.dfy, Exactness.dfy, Witnesses.dfy | what every reachable state keeps; the refinement of the abstract broker; when the code as written meets it |
| Rounds.dfy | one round of the event loop: which ready descriptors are served |
| Connections.dfy, Subscribers.dfy | one connection seen on its own, in both directions |
| EndToEnd.dfy | from what a peer does to what the lists record of it; from a datagram to what a subscriber prints |
| Floats.dfy, PowersOfTen.dfy, Decimals.dfy, Numbers.dfy, Roundings.dfy, FloatBounds.dfy | binary rounding over the reals, decimal digits, the client's number output and how far it is exact |

The answers of the operating system are inputs: the descriptors poll reports, what `accept` and `recv` return,
datagrams, and what uninitialised variables happen to hold. The main results hold for all of them, under one
assumption about the system, stated as `Invariant.FreshRun`: `accept` does not hand out a descriptor that is open.

## Model

| member | source | states |
|---|---|---|
| Clients.IndexById | clients.c:153-169 | the first client with the id: everything before it has another one; -1 exactly when none has it |
| Clients.IndexByFd | clients.c:171-187 | the first client with the descriptor, and -1 exactly when there is none |
| Base.OwnedAfterAdd | clients.c:93-103 | a node not seen before joins the live ones: created minus freed is still exactly what the list holds |
| Base.OwnedAfterFree | clients.c:117-135 | freeing a node of the list takes exactly this one out of the live ones |
| Clients.ClientList.constructor | clients.c:72-78 | an empty, well-formed list with no node created |
| Clients.ClientList.AddClient | clients.c:93-103 | one prepend, in the heap and in the contents; prev and next stay mutually inverse |
| Clients.ClientList.IsHead | clients.c:105-115 | comparing fields, prev and next holds if and only if the node is the head, in both editions |
| Clients.ClientList.Unlink | clients.c:131-132 | a node that is not the head leaves the chain; it faults exactly when the code is as written and the node is the tail |
| Clients.ClientList.UnlinkHead | clients.c:129 | the chain without its first node, well linked |
| Clients.ClientList.RemoveClient | clients.c:117-135 | exactly this node leaves and is freed, in its place, or nothing changes and the code faults, exactly for a tail that is not the head |
| Clients.ClientList.FindById | clients.c:153-169 | the node of the first client with the id, or NULL |
| Clients.ClientList.FindByFd | clients.c:171-187 | the node of the first client with the descriptor, or NULL |
| Clients.ClientList.RemoveClientByFd | clients.c:137-151 | the first client with the descriptor is removed, or nothing is |
| Clients.ClientList.UpdateClientByFd | clients.c:189-202 | state and id of one client change, and no node, link or other client; a fault exactly when there is such a client and the id overruns its buffer |
| Clients.ClientList.Destroy | clients.c:85-91 | every node is freed once, in list order; afterwards all created nodes are freed; no fault in either edition |
| Subscriptions.IndexOfSub | subscriptions.c:147-167 | the first subscription of the id to the topic, -1 exactly when there is none |
| Subscriptions.NextMatchIsFirst | subscriptions.c:178-187 | no node between the cursor and the match has the topic |
| Subscriptions.SubscriptionList.constructor | subscriptions.c:68-75 | an empty list, its cursor NULL |
| Subscriptions.SubscriptionList.AddSubscription | subscriptions.c:90-110 | one prepend; the cursor stays on its node |
| Subscriptions.SubscriptionList.IsHead | subscriptions.c:112-124 | the structural test holds if and only if the node is the head, even among equal subscriptions |
| Subscriptions.SubscriptionList.Unlink | subscriptions.c:141-142 | a node that is not the head leaves the chain; faults exactly for the tail as written |
| Subscriptions.SubscriptionList.UnlinkHead | subscriptions.c:139 | the chain without its first node |
| Subscriptions.SubscriptionList.LeaveCursor | subscriptions.c:126-145 | the cursor is off the node about to be freed: NULL or a node that stays reachable |
| Subscriptions.SubscriptionList.Detach | subscriptions.c:138-144 | unlinking and freeing, in the chain and in the ownership, whatever the cursor does |
| Subscriptions.SubscriptionList.RemoveSubscription | subscriptions.c:126-145 | exactly this node leaves and is freed; the cursor is NULL or on a reachable node |
| Subscriptions.SubscriptionList.Find | subscriptions.c:147-167 | the node of the first subscription of the id to the topic, or NULL |
| Subscriptions.SubscriptionList.Rewind | TCP_server.c:325 | the repair: the cursor is on the head |
| Subscriptions.SubscriptionList.GetNext | subscriptions.c:169-188 | the next match at or after the cursor, which moves just past it; NULL and an unmoved cursor when there is none |
| Subscriptions.SubscriptionList.Destroy | subscriptions.c:82-88 | every node is freed once, in list order |
| CursorPass.StepWellFormed | subscriptions.c:90-188 | any add, remove or get_next keeps list and cursor well formed |
| CursorPass.PendingAfterNext | subscriptions.c:178-187 | a call takes the first of the matches still ahead of the cursor |
| CursorPass.PendingAfterDrop | subscriptions.c:126-145 | a removal takes from the matches ahead at most the removed node |
| CursorPass.StepStaysOnCourse | subscriptions.c:90-188 | one operation keeps what was returned plus what is ahead, less removed nodes, in order |
| CursorPass.PassSkipsAndRepeatsNothing | subscriptions.c:90-188 | over any mix of adds, removals and calls from the head on, no surviving match is skipped or repeated |
| CursorPass.NextMovesOne | TCP_server.c:325-339 | every call that returns a node leaves one match less: the driving loop ends |
| CursorPass.UndisturbedPass | subscriptions.c:169-188 | an undisturbed pass returns exactly the matches in list order, then NULL |
| Passes.Apply | subscriptions.c:90-188 | on the heap, a subscription, an unsubscription or a get_next is its operation of the pass |
| Passes.RunPass | subscriptions.c:90-188 | any calls on a list, after a start at the head, leave the nodes, contents and cursor of the pass and return its nodes: each surviving match once, in order, and all of them at NULL |
| Pollers.FdIndexIsFirst | poller.c:60-68 | the first slot in use with the descriptor |
| Pollers.NextReady | poller.c:95-97 | where the iterator's search stops: at a slot with POLLIN or at the end |
| Pollers.NextReadyIsFirst | poller.c:95-97 | no slot skipped by the iterator has POLLIN |
| Pollers.Poller.constructor | poller.c:20-27 | an empty table of MAX_CONNECTIONS clear slots |
| Pollers.Poller.Poll | poller.c:37-46 | revents of all slots in use, and the iterator back at the start |
| Pollers.Poller.AddFd | poller.c:48-58 | one slot appended; outside the array exactly when the table is full |
| Pollers.Poller.FindFdIdx | poller.c:60-68 | the first slot with the descriptor, or -1 |
| Pollers.Poller.RemoveFd | poller.c:70-88 | the descriptor's slot is taken out and the later ones move down; the iterator does not move |
| Pollers.Poller.ShiftFrom | poller.c:80-82 | the loop of the left shift, in place |
| Pollers.Poller.NextFdWithPollin | poller.c:90-115 | the descriptor of the next slot with POLLIN and the iterator behind it, or -1 |
| Pollers.Poller.Advance | poller.c:117-120 | the iterator one further |
| PollRound.PendingAfterNext | poller.c:90-115 | the iterator takes exactly the first ready descriptor it has not passed |
| PollRound.PendingAfterAdd | poller.c:48-58 | an added slot is pending only if it carries POLLIN and the iterator is not beyond it |
| PollRound.PendingShifted | poller.c:80-83 | a left shift below the iterator moves the next slot out of its reach |
| PollRound.PendingWithoutAhead | poller.c:80-83 | a removal ahead of the iterator costs at most its own descriptor |
| PollRound.ChangeLosesAtMostOne | poller.c:48-120 | one accept or one close costs at most one ready descriptor, and reorders none |
| PollRound.StepAccounted | poller.c:48-120 | returned plus pending is what was ready, in order, short of at most one for each change |
| PollRound.AcceptAccountedIff | poller.c:48-58 | an accept of a descriptor that was not ready keeps the account if and only if its slot is clean, or behind the iterator |
| PollRound.IteratorAccounting | poller.c:70-120 | over any calls, accepts and closes: returned descriptors were ready, in index order, never repeated; those missed number at most the changes, and none without changes |
| PollRound.PendingIsReady | poller.c:37-46 | after a poll exactly the ready descriptors that asked for POLLIN are pending |
| PollRound.AcceptedIsPending | poller.c:48-58 | as written, an accepted connection is served unasked exactly when its slot still carries POLLIN ahead of the iterator |
| PollRound.AcceptAfterClose | poller.c:70-88 | as written, that slot carries POLLIN exactly when the last slot was ready at the close before |
| Packets.Le16Prefix | TCP_client.c:305-309 | the header is the length and, behind it, the message |
| Packets.EncodedBytes | TCP_client.c:218 | the packet: the length, the message without its last two bytes, zeros |
| Packets.ClientPacketIs | TCP_client.c:212-219 | a client's packet, byte by byte: 53 and 0, the type, the first 50 bytes of the payload, zeros |
| Packets.ServerPacketIs | TCP_server.c:187-191 | the server's packet, byte by byte: 1557 as 21 and 6, the address, the port, the first 1549 bytes of the datagram, zeros |
| Packets.PacketRoundTrip | TCP_client.c:212-219 | decode of encode is the message with its last two bytes zeroed, hence the identity if and only if they were zero |
| Packets.OwnMessageIff | TCP_server.c:130-131 | whatever was received before, the message stored is the one the packet carries if and only if the packet claims a whole client message, or the code is repaired |
| Packets.SaidIsRead | TCP_server.c:130-131 | the text a packet carries is the start of the text read in its place |
| Packets.ServerStoresClientMessage | TCP_server.c:130-131 | a client message replaces all of what recv_msg held before |
| Packets.Memcpy | TCP_client.c:218 | a copied range inside both buffers, and nothing else |
| Packets.PutNext | server.c:124-137 | the next bytes of a zeroed structure |
| Packets.StorePacket | TCP_server.c:130-131 | as many bytes as the packet claims replace the old message, of which, as written, the rest stays; a fault exactly when that is more than the structure holds |
| Packets.FillHeader | TCP_client.c:305-309 | length and message in a zeroed header |
| Packets.ClientComposeMsg | TCP_client.c:299-317 | the header around the client message |
| Packets.ServerComposeMsg | server.c:118-141 | the header around source address, port and datagram |
| Packets.FillPacket | TCP_server.c:187-190 | the packet that leaves, within its 1615 bytes |
| Streams.SendAll | util.c:33-48 | for every split of the sends the buffer's bytes leave in order; as written, followed by some of them again |
| Streams.RecvAll | util.c:7-31 | for every split of the receives the buffer is the next bytes of the stream, 0 if they end before; as written, overwritten by some more |
| Streams.FramingRoundTrip | util.c:7-48 | reading packet by packet undoes the concatenation of equal-sized packets |
| Streams.SendEach | util.c:33-48 | a list of packets leaves as its concatenation |
| Streams.RecvEach | util.c:7-31 | repeated recv_all yields the stream cut into packets |
| Streams.SendThenReceive | util.c:7-48 | end to end: the packets received are the packets sent, none lost, doubled or shared |
| Streams.AsWrittenSendsMore | util.c:47 | as written the stream equals the packets only if there are none |
| Streams.AsWrittenPairInStep | util.c:30-47 | as written a packet and the place in the stream come out right if and only if both extra calls move equally many bytes |
| Streams.ServerSeesTwice | TCP_server.c:121 | as written, when the extra sends go out whole, the server reads every client message twice |
| Senders.TcpClientSend | TCP_client.c:212-225 | the packet of the header leaves, as written with some of it again |
| Senders.SendMessage | TCP_client.c:299-317 | composing, packing and sending together put the encoded message on the stream |
| Senders.SendMessages | TCP_client.c:212-225 | the stream of a client carries its messages, however the sends are split |
| Payloads.ScanText | TCP_server.c:267-276 | the scanner reads a topic and what follows it; it overruns exactly when the payload is not terminated or the topic has 50 bytes or more |
| Payloads.PayloadOnArrival | TCP_server.c:130-131 | a text arrives cut to its first 50 bytes |
| Payloads.TextRoundTrip | TCP_server.c:306-309 | an unsubscribed topic arrives whole if and only if it has at most 50 bytes |
| Payloads.IdRoundTrip | TCP_server.c:244-245 | an id is taken over whole when it has at most 9 bytes, and overruns its buffer otherwise |
| Payloads.ShortTopicArrives | TCP_server.c:267-276 | a topic of at most 48 bytes is scanned with its flag |
| Payloads.LongTopicLosesFlag | TCP_server.c:267-276 | a topic of 49 bytes leaves the flag unset |
| Payloads.SubscribeRoundTrip | TCP_client.c:291-297 | print, frame, unframe and scan give back the topic always, and the flag as 0 or 1 if and only if the topic has at most 48 bytes |
| Scans.LowByteIs | TCP_server.c:271-274 | the low byte kept of a flag differs from the number sent by a multiple of 256, unless that is no unsigned long |
| Scans.FlagIsRead | TCP_server.c:271-274 | a flag is the low byte of any number, signed or not, up to the first byte that is no digit |
| Scans.ArgumentsAreScanned | TCP_server.c:267-277 | of any terminated payload, the topic is the first word, wherever it starts, and the flag the number behind it; a topic of 50 bytes or more overruns its buffer |
| Scans.BlanksNameNothing | TCP_server.c:267-277 | a payload of white space alone names no topic |
| Payloads.Strlen | TCP_client.c:294-296 | the length of the string in a buffer |
| Payloads.Strcat | TCP_client.c:294-296 | the string appended in place, terminated, the rest of the buffer untouched |
| Payloads.SetPayload | TCP_client.c:291-297 | the buffer holds the text and zeros behind it |
| ServerModel.RunAppend | server.c:159-244 | a run of two parts is the second part from where the first ends |
| ServerModel.IterationAdvances | server.c:170-243 | every iteration brings the iterator nearer to the end of the table: each round ends, in both editions |
| ServerModel.TraceIsRun | server.c:159-244 | what the nested loops do, by their trace, is a run of steps with the same end and output |
| ServerModel.TraceIsDetermined | server.c:159-244 | the answers of the environment determine the trace |
| Servers.AheadStep | TCP_server.c:325-339 | one iteration of the sending loop against the meaning of the whole pass |
| Servers.TcpServer.constructor | TCP_server.c:67-78 | the fresh server stands for the starting state of the model |
| Servers.TcpServer.WatchOwn | server.c:149-152 | stdin, UDP and TCP descriptors fill the first three slots |
| Servers.TcpServer.Send | TCP_server.c:183-197 | exactly the packet of the header is handed to send_all on the descriptor |
| Servers.TcpServer.SendToSubscriber | TCP_server.c:332-335 | the client connected under the id gets the packet, if there is one |
| Servers.TcpServer.SendNext | TCP_server.c:325-335 | the next match is sent to its subscriber, skipped, or faults, and the cursor is behind it |
| Servers.TcpServer.SendStep | TCP_server.c:325-339 | an iteration keeps sent plus still to be sent equal to the whole pass |
| Servers.TcpServer.SendToSubscribers | TCP_server.c:318-342 | the pass on the heap does what the model says, status, output and cursor included |
| Servers.TcpServer.AcceptConnection | TCP_server.c:88-111 | the accepted client is prepended and its slot appended behind an advanced iterator; refusal and faults as in the model |
| Servers.TcpServer.CloseConnection | TCP_server.c:199-211 | client and slot are removed together |
| Servers.TcpServer.Disconnect | server.c:206-212 | the end of a connection, with the lookup its status line needs |
| Servers.TcpServer.UpdateClient | TCP_server.c:235-260 | NEW connects under an unused id and otherwise ends its connection; a fault when the id overruns its buffer |
| Servers.TcpServer.Requested | TCP_server.c:267-292 | the subscription asked for, with an unset flag as it was; undefined when no topic was read or a buffer was overrun |
| Servers.TcpServer.Subscribe | TCP_server.c:278-294 | one more subscription under the client's id, nothing without a client, a fault without a topic that fits |
| Servers.TcpServer.Unsubscribe | TCP_server.c:296-316 | the first matching subscription is removed, if any |
| Servers.TcpServer.IsNewConnection | TCP_server.c:213-223 | whether the client of the descriptor is new |
| Servers.TcpServer.HandleMessage | server.c:213-241 | the state gate and the three message types, with their faults |
| Servers.TcpServer.ReceivePacket | TCP_server.c:115-121 | what arrived, in a zeroed packet |
| Servers.TcpServer.StoreMessage | TCP_server.c:130-131 | as many bytes as the packet claims replace the old message, of which, as written, the rest stays; a fault exactly when that is more than the structure holds |
| Servers.TcpServer.ReceiveMessage | server.c:201-241 | storing and handling a packet, as in the model |
| Servers.TcpServer.ServeClient | server.c:201-242 | a readable client connection: error, end, or a message |
| Servers.TcpServer.Destroy | TCP_server.c:80-86 | both lists are freed, node by node in list order, and nothing is left |
| EventLoop.ComposedHeader | server.c:118-141 | the composed header yields the datagram's topic and its packet |
| EventLoop.ServeDatagram | server.c:184-192 | a datagram is composed and sent to the subscribers of its topic |
| EventLoop.Command | server.c:173-183 | a word that overruns its buffer faults, exit destroys both lists, and any other command changes nothing |
| EventLoop.Dispatch | server.c:170-242 | the branch of the loop body for each kind of descriptor |
| EventLoop.Serve | server.c:166-243 | an iteration of the inner loop on the heap is the model's |
| EventLoop.ServeRound | server.c:166-243 | the inner loop ends and leaves a trace that stands for the heap, in both editions |
| EventLoop.RunServer | server.c:146-245 | the nested loops, for any number of polls: a trace of model steps stands for state and output; after exit every node ever created is freed |
| EventLoop.ServeForever | server.c:250-278 | the same from the server's creation on |
| Broker.CountsSurvive | TCP_server.c:199-260 | connecting, leaving, reconnecting and publishing leave every count as it was |
| Broker.CountIsTally | TCP_server.c:278-316 | a count is the saturating sum of the +1 and -1 said under the id |
| Broker.Reconnected | TCP_server.c:318-342 | whoever is connected under an id, on any descriptor, gets what the subscriptions made under it before imply |
| Broker.AlikeIffSameEffect | server.c:213-241 | two messages of a client leave brokers that cannot be told apart if and only if they have the same effect: which id joins, which topic is added or dropped, whether the connection ends |
| Broker.TwiceSaidIsTwiceDue | util.c:47 | if everything clients say is said twice, the same clients are connected, each count doubles, and each packet is due twice as often on every descriptor |
| Invariant.StartInv | server.c:146-152 | the starting state satisfies the invariant |
| Invariant.SlotOfClient | server.c:193-198 | the client at position k of the list sits in slot num - 1 - k and in no other |
| Invariant.TableAfterClose | TCP_server.c:199-211 | list and table still mirror each other after both removals |
| Invariant.CloseInv | TCP_server.c:199-211 | closing a connection keeps the invariant |
| Invariant.AcceptInv | server.c:193-200 | accepting keeps the invariant, given a fresh descriptor |
| Invariant.UpdateInv | TCP_server.c:235-260 | connecting under an id keeps ids unique and new clients nameless |
| Invariant.NextIsKnown | server.c:170-201 | the iterator returns only own descriptors and those of clients in the list |
| Invariant.StepInv | server.c:159-244 | every step of either edition keeps the invariant; it includes that every slot in use asks for POLLIN |
| Invariant.RunInv | server.c:159-244 | so does every run |
| Invariant.TableIsReverseOfClients | server.c:193-223 | in every reachable state the table is stdin, UDP, TCP and the reverse of the client list, without repetition; new means an empty id, and connected ids are unique |
| Invariant.RunStrings | subscriptions.c:33-34 | whatever clients send, every id and topic stored in a run that stays within defined behaviour fits its buffer |
| Refinement.TakenIffFound | TCP_server.c:225-233 | the list search finds an id exactly when a peer of the abstract broker has it |
| Refinement.RefusalRefines | TCP_server.c:248-251 | a duplicate or empty id ends its own connection and disturbs no other client |
| Refinement.JoinRefines | TCP_server.c:243-259 | under a free id, connecting is the broker's Hello, and is defined if and only if the id fits its buffers |
| Refinement.SubscribeRefines | TCP_server.c:278-294 | a subscription is +1 on exactly one count, and is defined if and only if it names a topic that fits |
| Refinement.UnsubscribeRefines | TCP_server.c:296-316 | removing one is -1 on exactly one count, saturating |
| Refinement.AcceptRefines | TCP_server.c:88-111 | an accepted connection is a fresh peer |
| Refinement.ActedOnRefines | server.c:159-244 | every step of either edition that stays within defined behaviour is the broker's step for the message the code reads in recv_msg |
| Refinement.EffectIs | server.c:213-241 | the effect of a message, decided by the lists, is its effect on the broker |
| Refinement.ActedAsSaidIff | TCP_server.c:130-131 | what the code acts on and what the packet carries leave brokers that cannot be told apart if and only if nothing is mixed |
| Refinement.WholeIsUnmixed | TCP_server.c:113-134 | nothing is mixed in any run of the repaired code, nor, as written, in a run whose packets claim whole client messages |
| Refinement.StepRefines | server.c:159-244 | forward simulation: every step of either edition that stays within defined behaviour, string copies included, is the broker's step for what the packet says, if and only if nothing is mixed; and only datagrams send |
| Refinement.PassDelivers | TCP_server.c:318-342 | a pass sends the packet to each connected client once for each of its subscriptions, to no one else, and sends nothing else |
| Refinement.RepairedDelivers | server.c:184-192 | a step sends, for every descriptor and packet, what is due in the broker |
| Refinement.RunIsRefined | server.c:159-244 | forward simulation over every run of either edition in which nothing is mixed: the lists stand for the broker after what the packets said |
| Refinement.RunDelivers | server.c:159-244 | over every run a packet has gone out on a descriptor exactly as often as it was due there |
| Refinement.RunRefines | server.c:159-244 | both together, for all packets and descriptors |
| Refinement.SubscriptionsSurvive | TCP_server.c:199-342 | in the list of either edition, too, a run in which nothing is mixed and no packet carries a subscription message keeps every count |
| Refinement.DeliveryOverRuns | server.c:146-245 | the same from the start on, with the count in closed form |
| Exactness.HandleRuns | server.c:213-241 | exactly when handling a message stays within defined behaviour: its strings fit, and, as written, what it removes is a head or has a successor |
| Exactness.NothingDue | TCP_server.c:318-342 | nothing is due exactly when no connected client waits for the topic |
| Exactness.EndsIff | server.c:166-243 | which iterations find nothing, exit and die, exactly; and which turns of stdin and the listener leave defined behaviour |
| Exactness.ClientTurnIff | server.c:201-242 | a client's turn stays within defined behaviour and does what its packet says if and only if its packet is healthy and, as written, the guard of the turn holds |
| Exactness.RepairedMeetsIff | server.c:159-244 | the repaired step does what the broker asks for what the packet carries, if and only if the system succeeds, the word typed and the strings sent fit their buffers, and a subscription names a topic |
| Exactness.AsWrittenMeetsIff | server.c:159-244 | the step as written does if and only if, in addition, its guard holds: nobody waits for the topic, the table has room, what is removed is a head or has a successor, and the message read in recv_msg fits and has the effect of the one the packet carries |
| Exactness.AsWrittenNeverDelivers | subscriptions.c:68-75 | the code as written sends nothing in any run |
| Witnesses.DatagramIsLost | subscriptions.c:68-75 | as written, from the start on: a client connects and subscribes, a datagram on its topic arrives, one copy is due and none is sent |
| Witnesses.FirstSubscriptionLeaves | subscriptions.c:141-142 | two subscriptions, and the first is unsubscribed: as written, the program leaves defined behaviour |
| Witnesses.OldestClientLeaves | clients.c:131-132 | two clients connect and the first one leaves: as written, the program leaves defined behaviour |
| Witnesses.AcceptedIsServedUnasked | poller.c:48-58 | the newest of two clients leaves and another connects: as written, the iterator hands it out although the poll reported only the listener |
| Witnesses.SilentClientTakesOver | TCP_server.c:130-131 | a client connects under an id and leaves, another connects and sends 1615 zero bytes: as written, it is connected under that id, although its packet carries an empty one |
| Rounds.TableAfterServe | server.c:166-243 | an iteration changes the poll table by the iterator's call and at most one accept or close |
| Rounds.RepairedIsClean | poller.c:48-58 | in the repaired edition every accept finds a clean slot |
| Rounds.ServeAccounted | server.c:166-243 | an iteration of the server keeps the account of its round |
| Rounds.AcceptAccountedIff | server.c:193-200 | an accept of a descriptor that was not ready keeps the account of its round if and only if its slot is clean, or behind the iterator |
| Rounds.ReadyIsPending | poller.c:37-46 | after a poll, pending are exactly the descriptors of the table that are ready, in its order |
| Rounds.ReadyFromStart | server.c:146-163 | a poll in any reachable state of either edition makes pending exactly those of stdin, UDP, TCP and the connections, first accepted first, that are ready |
| Rounds.RoundServes | server.c:166-243 | in a round of either edition whose accepts find clean slots, as all of the repaired one do, each descriptor is served at most once, only if in the table and ready, in table order; those left out number at most the accepts and closes, and without them exactly the ready descriptors of the table are served |
| Connections.HearsFirst | TCP_server.c:113-134 | a turn hears the first message still to come of those its client composed, and stores just that, whatever recv_msg held before, from whichever connection |
| Connections.HeardInOrder | TCP_server.c:113-134 | what is heard on a connection is a prefix of what its client composed, in order, whatever happens in between; all of it when the stream is read to its end |
| Connections.HeardTwice | util.c:47 | what a client sends as written, its extra sends going out whole, is heard as each message once more right behind itself |
| Connections.OthersAreIgnored | server.c:213-241 | a message that does not suit the client's state changes no list and sends nothing; as written, if its packet claims a byte |
| Connections.OthersLeaveItAlone | server.c:201-242 | a turn of anyone else, in either edition and whatever they send, leaves a client connected, and its state and id alone |
| Connections.OwnMessagesOnly | server.c:213-241 | a client's state and id change by what its own packets carry and by nothing else, if and only if nothing is mixed into them while it is new |
| Connections.ViewIsChained | server.c:201-242 | so in every run, as written if its packets claim whole messages, the state a turn finds follows from the messages heard before |
| Connections.GateOpensWithNew | server.c:213-223 | what passes the state gate starts with NEW and goes on with subscriptions and unsubscriptions only |
| Connections.ActedInOrder | server.c:201-242 | the messages acted on, on an accepted connection, are those of a prefix of the composed ones that pass the gate, in order, NEW first |
| Subscribers.PassInOrder | TCP_server.c:318-342 | on each descriptor a pass puts the packet as many times as its client has subscriptions |
| Subscribers.RunInOrder | server.c:159-244 | over every run the packets sent on a descriptor are exactly those due there, in order |
| Subscribers.SubscriberReads | TCP_client.c:227-238 | reading the bytes of a descriptor packet by packet gives exactly those packets |
| Subscribers.ServerDelivers | server.c:146-245 | the same for what the event loop has sent since its start |
| Subscribers.DatagramArrives | TCP_server.c:187-191 | address, port and all but the last two bytes of the datagram arrive; the whole datagram if and only if it ends in two zeros |
| EndToEnd.NewIsRecorded | TCP_server.c:235-260 | NEW from a new client: an id of 10 bytes or more is a fault, an empty one or one in use ends the connection, any other is recorded, and nothing else changes |
| EndToEnd.SubscriptionIsRecorded | TCP_server.c:278-294 | SUBSCRIBE from a connected client puts exactly the topic, the client's id and the flag, as 0 or 1, in front of the list; with a topic of 49 bytes the flag is what the variable held |
| EndToEnd.UnsubscriptionIsRecorded | TCP_server.c:296-316 | UNSUBSCRIBE takes out the first subscription of the client's id to the topic, or nothing; as written, a tail is a fault |
| EndToEnd.StepAddress | TCP_server.c:99-106 | a step leaves the address recorded for a descriptor alone, or takes it away, or records the one that came with its accept |
| EndToEnd.RunAddresses | TCP_server.c:88-111 | over every run, a client in the list carries the address and port of the last accept of its descriptor, or, without one, those it had before |
| EndToEnd.AddressesFromStart | TCP_server.c:88-111 | in every reachable state every client carries the address and port of the last accept of its descriptor |
| EndToEnd.DatagramGoesOut | TCP_server.c:318-342 | a datagram that starts with a topic goes out to each client once for each of its subscriptions to that topic, to nobody else, and nothing else goes out |
| EndToEnd.DatagramIsPrinted | TCP_client.c:240-277 | what a subscriber prints of a datagram: of a number what its content gives, of a text that text, cut to 1498 bytes |
| Floats.ExponentIs | TCP_client.c:267 | the binade of a number is unique |
| Floats.RoundError | TCP_client.c:267 | a rounding is off by at most 2^-p of the number, or half the least bit below the first binade |
| Floats.RoundIsNearest | TCP_client.c:267 | no value of the format is nearer |
| Floats.RoundIsValue | TCP_client.c:267 | the result is a value of the format |
| Floats.RoundExact | TCP_client.c:267 | exactly the values of the format are rounded to themselves |
| Floats.TieIsEven | TCP_client.c:267 | halfway between two neighbours, the one with the even significand is taken |
| Decimals.ValueConcat | TCP_client.c:256-257 | digits in front count as many times as there are units of the digits behind |
| Decimals.DecimalReads | TCP_client.c:256-257 | printed digits read back as the number, with no leading zero |
| Decimals.OnlyDecimalReads | TCP_client.c:256-257 | no other text does |
| Decimals.FixedIff | TCP_client.c:261 | what is printed, and nothing else, has one point with exactly d digits behind it, which read as n % 10^d, and digits in front that read as n / 10^d, without a superfluous zero; and no point if d is 0 |
| Decimals.ReadsOnce | TCP_client.c:268-269 | such a text stands for one number only |
| Numbers.ShortIsBig | TCP_client.c:260 | ntohs of the loaded half word is the big-endian number |
| Numbers.LongIsBig | TCP_client.c:255 | ntohl of the loaded word is the big-endian number of its four bytes |
| Numbers.ShowsIff | TCP_client.c:256-257 | a text that shows a signed number starts with a minus sign if and only if it is negative, and there is one such text |
| Numbers.IntIsExact | TCP_client.c:253-258 | an INT shows its number, behind a minus sign exactly for a sign byte that is not 0, if and only if it is below 2^31; from there on it shows the number less 2^32 |
| Numbers.PowerNear | TCP_client.c:267 | the quotient by an inexact power is off by at most 2^-51 of the significand |
| Numbers.DoubleNear | TCP_client.c:267 | the error of the binary64 division in units of the last digit printed |
| Numbers.FloatNear | TCP_client.c:267 | the error of the conversion to float in the same units |
| Numbers.FloatIsExact | TCP_client.c:263-269 | every significand below 2^23 with an exponent of at most 44 is printed exactly |
| Numbers.PowerExists | TCP_client.c:267 | there is a binary64 number that an accurate pow may return |
| Numbers.LargeExponentFails | TCP_client.c:263-269 | for each larger exponent, and every value an accurate pow may return, there is a significand that is not |
| Numbers.FloatIsExactIff | TCP_client.c:263-269 | hence, for every exponent and every value an accurate pow may return for it: all significands below 2^23 are printed exactly if and only if the exponent is at most 44 |
| Numbers.FloatTextIs | TCP_client.c:268-269 | the text shows the sign and the count of units, and so the number sent if and only if the count is the significand |
| Numbers.WholeFloatIsExactIff | TCP_client.c:263-269 | without decimals, a significand is printed exactly if and only if it has at most 24 significant bits |
| Numbers.TieIsPrintedEven | TCP_client.c:263-269 | without decimals, an odd number of 25 bits is printed as the multiple of four next to it, 16777217 as 16777216 |
| Roundings.RoundedTwice | TCP_client.c:267 | the quotient is rounded to a double and then to a float, which is not the same as once: 2712892001 with 14 decimals is printed as 2712892092 and not as 2712891910 |
| Numbers.LargeSignificandFails | TCP_client.c:263-269 | 131072.01 is printed as 131072.02, whatever an accurate pow returns |
| FloatBounds.GrainIsApart | TCP_client.c:263-269 | for 1 to 44 decimals, the last power of two below one unit is neither close to it nor to half of it |
| FloatBounds.GrainExists | TCP_client.c:263-269 | there is such a power of two for each of them |
| FloatBounds.ExactUpToBound | TCP_client.c:263-269 | with e decimals, every significand up to 2^(24+k) * 10^e, for the largest k with 2^k * 10^e < 1, is printed exactly |
| FloatBounds.FailsBeyondBound | TCP_client.c:263-269 | for every value an accurate pow may return, some significand less than twice as large is not |
| FloatBounds.FloatBoundIsSharp | TCP_client.c:263-269 | both together, for every such value: the bound on the significand for each number of decimals from 1 to 44 |
| FloatBounds.BoundOfTwoDecimals | TCP_client.c:263-269 | with two decimals the bound is 13107200, and 13107201 fails |
| Numbers.ShortRealIsExact | TCP_client.c:259-262 | the text of every 16-bit number reads as its hundredths |
| Numbers.ContentIsPrinted | TCP_client.c:251-277 | from the bytes received to the text printed, for each data type: what the digits read as and when a minus sign comes first; for type 3 and any unknown one, the text in front of the terminator |
| Numbers.TextIsPrinted | TCP_client.c:271-276 | a text that is terminated, or fills the content, is printed as it is |

## Left out

- FloatBounds.FailsBeyondBound: beyond the bound it names one significand that fails, not all of them; without decimals, Numbers.WholeFloatIsExactIff has them all.
- Payloads.SetPayload: topics of 50 bytes and more, which overrun the client's own buffer before this function is called.
- Packets.ClientComposeMsg: payloads of 52 bytes and more, which overrun the message structure.
- Servers.TcpServer.Send: the result of send_all is a success; how send_all splits or repeats the bytes is the subject of Streams, and a failing send ends the program as DIE does.
- EventLoop.RunServer: the loop is followed for any given number of polls, since the original only ends when the program does.
- Pollers.Poller.Poll: of events and revents only the POLLIN bit, the only one the program uses; a failing poll or recvfrom, which ends the program.
- Streams.RecvAll: a failing recv, which ends the program.
- Servers.TcpServer.SendToSubscribers: a topic of a datagram without a terminator is taken up to the first zero behind it; the comparison with the shorter topics of the list ends before that.
- An uninitialised rc, flag, command or recv_msg is taken as an arbitrary value, although reading rc is not defined at all: the clause on rc in Exactness.Guarded speaks of one value it may turn out to have.
- Datagrams shorter than a whole UDP message: what the rest of the buffer holds is part of the input.
- Opening, binding, listening on and closing sockets; address conversion; a closed descriptor is one that left the table.
- Store-and-forward queues: stored_messages.h only declares them; the flag is data.
- Debug output, the status lines, argument parsing, and the interactive commands of the client.
- The rest of the line the client prints for a message: source address, port and topic, the name of the data type, the line break.
- TCP_server_recv_all1, which nothing calls.
- pow is any function accurate to one unit in the last place, and printf rounds correctly; overflow of binary32, which no 32-bit significand reaches, has no model.
