/** Runs on which the code as written goes wrong, from its start on. */
module Witnesses {
  import opened Base
  import opened Clients
  import opened Exactness
  import opened Invariant
  import opened Packets
  import opened Payloads
  import opened Pollers
  import opened Refinement
  import opened ServerModel
  import opened Subscriptions
  import B = Broker

  const UDP_FD := 3
  const TCP_FD := 4
  const CONFIG := Config(AsWritten, UDP_FD, TCP_FD)

  /** What the system answers: accept, recv and recvfrom. */
  function Answers(accepted: int, received: seq<Byte>, datagram: seq<Byte>): (e: Input)
    requires |received| <= PACKET_MAXLEN && |datagram| == UDP_MSG_LEN
    ensures Proper(e)
  {
    Input(None, datagram, Zeros(4), Zeros(2), accepted, [], [], false, received, false, 0, 0)
  }

  function Accepting(fd: int): Input {
    Answers(fd, [], Zeros(UDP_MSG_LEN))
  }

  function Leaving(): Input {
    Answers(0, [], Zeros(UDP_MSG_LEN))
  }

  function Saying(kind: Byte, text: Str): Input
    requires |text| < CTOS_MAXLEN
  {
    Answers(0, Encode(ClientMessage(kind, text)), Zeros(UDP_MSG_LEN))
  }

  /** A packet that claims no byte of a message. */
  function Silence(): Input {
    Answers(0, Zeros(PACKET_MAXLEN), Zeros(UDP_MSG_LEN))
  }

  function Publishing(topic: Str): Input
    requires |topic| <= TOPIC_LEN
  {
    Answers(0, [], topic + Zeros(UDP_MSG_LEN - |topic|))
  }

  /** A poll that reports one descriptor, and the iteration that serves it. */
  function Serving(fd: int, e: Input): seq<Label> {
    [Poll({fd}), Iterate(e)]
  }

  /** The run of ls is one of the system's, and leads to s without having sent anything. */
  ghost predicate Reaches(start: Server, ls: seq<Label>, s: Server)
    requires Shape(CONFIG, start)
  {
    ProperRun(ls) && FreshRun(CONFIG, start, ls) && Run(CONFIG, start, ls) == Running(s, [])
  }

  lemma ServingRuns(s: Server, fd: int, e: Input)
    requires Shape(CONFIG, s) && Proper(e) && FreshAccept(CONFIG, StartRound(s, {fd}), Iterate(e))
    ensures ProperRun(Serving(fd, e)) && FreshRun(CONFIG, s, Serving(fd, e))
    ensures var o := Serve(CONFIG, StartRound(s, {fd}), e);
            !o.Idle? ==> Run(CONFIG, s, Serving(fd, e)) == o
  {
    var ls := Serving(fd, e);
    assert ls[1..] == [ls[1]] && ls[1..][1..] == [];
    RunGoesOn(CONFIG, s, [], ls[0]);
    RunGoesOn(CONFIG, s, [ls[0]], ls[1]);
    assert [] + [ls[0]] == [ls[0]] && [ls[0]] + [ls[1]] == ls;
  }

  /** One more poll and iteration. */
  lemma ReachesNext(start: Server, ls: seq<Label>, s: Server, fd: int, e: Input)
    requires Shape(CONFIG, start) && Shape(CONFIG, s) && Reaches(start, ls, s)
    requires Proper(e) && FreshAccept(CONFIG, StartRound(s, {fd}), Iterate(e))
    ensures var o := Serve(CONFIG, StartRound(s, {fd}), e);
            && (o.Running? && o.out == [] ==> Reaches(start, ls + Serving(fd, e), o.server))
            && (o.Fault? ==> ProperRun(ls + Serving(fd, e)) && FreshRun(CONFIG, start, ls + Serving(fd, e))
                             && Run(CONFIG, start, ls + Serving(fd, e)) == Fault)
  {
    ServingRuns(s, fd, e);
    FreshAppend(CONFIG, start, ls, Serving(fd, e));
    RunAppend(CONFIG, start, ls, Serving(fd, e));
  }

  // ---- single steps

  /** The table watches the server's own descriptors and then fds; the lists hold just these. */
  ghost predicate At(s: Server, fds: seq<int>, clients: seq<Client>, subs: seq<Subscription>) {
    && Shape(CONFIG, s) && s.clients == clients && s.subs == subs
    && s.table.num == 3 + |fds|
    && (forall i :: 0 <= i < s.table.num ==>
          s.table.slots[i].fd == ([STDIN, UDP_FD, TCP_FD] + fds)[i] && s.table.slots[i].events)
  }

  lemma {:induction false} FirstReady(t: Table, i: nat, k: nat)
    requires i <= k < t.num <= |t.slots| && t.slots[k].revents
    requires forall j :: i <= j < k ==> !t.slots[j].revents
    ensures NextReady(t, i) == k
    decreases k - i
  {
    if i < k {
      FirstReady(t, i + 1, k);
    }
  }

  /** The iterator finds the only descriptor that is ready. */
  lemma OnlyReady(s: Server, fds: seq<int>, clients: seq<Client>, subs: seq<Subscription>, k: nat, fd: int)
    requires At(s, fds, clients, subs) && k < 3 + |fds| && ([STDIN, UDP_FD, TCP_FD] + fds)[k] == fd
    requires forall i :: 0 <= i < k ==> ([STDIN, UDP_FD, TCP_FD] + fds)[i] != fd
    ensures var t := StartRound(s, {fd}).table;
            NextFd(t) == (fd, t.(idx := k + 1))
    ensures At(StartRound(s, {fd}).(table := NextFd(StartRound(s, {fd}).table).1), fds, clients, subs)
  {
    FirstReady(StartRound(s, {fd}).table, 0, k);
  }

  function NewClient(fd: int): Client {
    Client(New, fd, [], [], [])
  }

  function Member(fd: int, id: Str): Client {
    Client(Connected, fd, id, [], [])
  }

  lemma AcceptStep(s: Server, fds: seq<int>, clients: seq<Client>, subs: seq<Subscription>, fd: int)
    requires At(s, fds, clients, subs) && |fds| < 10 && TCP_FD < fd && IndexByFd(clients, fd) < 0
    ensures FreshAccept(CONFIG, StartRound(s, {TCP_FD}), Iterate(Accepting(fd)))
    ensures var o := Serve(CONFIG, StartRound(s, {TCP_FD}), Accepting(fd));
            && o.Running? && o.out == [] && At(o.server, fds + [fd], [NewClient(fd)] + clients, subs)
            && o.server.table.idx == 4
            && o.server.table.slots[s.table.num].revents == s.table.slots[s.table.num].revents
            && o.server.recvMsg == s.recvMsg
  {
    OnlyReady(s, fds, clients, subs, 2, TCP_FD);
    assert [STDIN, UDP_FD, TCP_FD] + (fds + [fd]) == [STDIN, UDP_FD, TCP_FD] + fds + [fd];
  }

  lemma SayingWhole(kind: Byte, text: Str)
    requires |text| < CTOS_MAXLEN
    ensures FromLe16(Padded(Saying(kind, text).received)[..2]) == CTOS_LEN
  {
    EncodedBytes(ClientMessage(kind, text));
    assert Padded(Saying(kind, text).received)[..2] == Le16(CTOS_LEN);
  }

  /** A message of the client in slot k is handled as Shorn leaves it. */
  lemma SayStep(s: Server, fds: seq<int>, clients: seq<Client>, subs: seq<Subscription>, k: nat, fd: int,
                kind: Byte, text: Str)
    requires At(s, fds, clients, subs) && k < 3 + |fds| && ([STDIN, UDP_FD, TCP_FD] + fds)[k] == fd
    requires (forall i :: 0 <= i < k ==> ([STDIN, UDP_FD, TCP_FD] + fds)[i] != fd) && TCP_FD < fd
    requires |text| < CTOS_MAXLEN
    ensures FreshAccept(CONFIG, StartRound(s, {fd}), Iterate(Saying(kind, text)))
    ensures var s' := StartRound(s, {fd}).(table := StartRound(s, {fd}).table.(idx := k + 1),
                                           recvMsg := Shorn(ClientMessage(kind, text)));
            && At(s', fds, clients, subs)
            && Serve(CONFIG, StartRound(s, {fd}), Saying(kind, text))
               == HandleMessage(CONFIG, s', fd, Saying(kind, text))
  {
    OnlyReady(s, fds, clients, subs, k, fd);
    var packet := Encode(ClientMessage(kind, text));
    assert Padded(packet) == packet;
    ServerStoresClientMessage(s.recvMsg, ClientMessage(kind, text));
  }

  lemma JoinStep(s: Server, fd: int, id: Str)
    requires At(s, [fd], [NewClient(fd)], []) && TCP_FD < fd && 0 < |id| < ID_MAXLEN && 0 !in id
    ensures FreshAccept(CONFIG, StartRound(s, {fd}), Iterate(Saying(MSG_NEW, id)))
    ensures var o := Serve(CONFIG, StartRound(s, {fd}), Saying(MSG_NEW, id));
            && o.Running? && o.out == [] && At(o.server, [fd], [Member(fd, id)], [])
            && o.server.recvMsg == Shorn(ClientMessage(MSG_NEW, id))
  {
    SayStep(s, [fd], [NewClient(fd)], [], 3, fd, MSG_NEW, id);
    IdRoundTrip(id);
  }

  lemma SubscriptionIsAdded(s: Server, fd: int, id: Str, subs: seq<Subscription>, topic: Str, e: Input)
    requires At(s, [fd], [Member(fd, id)], subs) && IsTopic(topic) && |topic| <= 48
    requires s.recvMsg == Shorn(ClientMessage(MSG_SUBSCRIBE, SubscribeText(topic, 1)))
    ensures HandleMessage(CONFIG, s, fd, e) == Running(Added(s, Subscription(topic, id, 1)), [])
    ensures At(Added(s, Subscription(topic, id, 1)), [fd], [Member(fd, id)], [Subscription(topic, id, 1)] + subs)
  {
    SubscribeRoundTrip(topic, 1);
  }

  lemma SubscribeStep(s: Server, fd: int, id: Str, subs: seq<Subscription>, topic: Str)
    requires At(s, [fd], [Member(fd, id)], subs) && TCP_FD < fd && IsTopic(topic) && |topic| <= 48
    ensures FreshAccept(CONFIG, StartRound(s, {fd}), Iterate(Saying(MSG_SUBSCRIBE, SubscribeText(topic, 1))))
    ensures var o := Serve(CONFIG, StartRound(s, {fd}), Saying(MSG_SUBSCRIBE, SubscribeText(topic, 1)));
            o.Running? && o.out == [] && At(o.server, [fd], [Member(fd, id)], [Subscription(topic, id, 1)] + subs)
  {
    var text, s1 := SubscribeText(topic, 1), StartRound(s, {fd});
    SayStep(s, [fd], [Member(fd, id)], subs, 3, fd, MSG_SUBSCRIBE, text);
    var s2 := s1.(table := s1.table.(idx := 4), recvMsg := Shorn(ClientMessage(MSG_SUBSCRIBE, text)));
    SubscriptionIsAdded(s2, fd, id, subs, topic, Saying(MSG_SUBSCRIBE, text));
  }

  lemma UnsubscribeStep(s: Server, fd: int, id: Str, first: Str, second: Str)
    requires At(s, [fd], [Member(fd, id)], [Subscription(second, id, 1), Subscription(first, id, 1)])
    requires TCP_FD < fd && first != second && |first| <= 48 && 0 !in first
    ensures FreshAccept(CONFIG, StartRound(s, {fd}), Iterate(Saying(MSG_UNSUBSCRIBE, first)))
    ensures Serve(CONFIG, StartRound(s, {fd}), Saying(MSG_UNSUBSCRIBE, first)) == Fault
  {
    var subs := [Subscription(second, id, 1), Subscription(first, id, 1)];
    SayStep(s, [fd], [Member(fd, id)], subs, 3, fd, MSG_UNSUBSCRIBE, first);
    TextRoundTrip(MSG_UNSUBSCRIBE, first);
    assert IndexOfSub(subs, first, id) == 1;
  }

  lemma PublishStep(s: Server, fds: seq<int>, clients: seq<Client>, subs: seq<Subscription>, topic: Str)
    requires At(s, fds, clients, subs) && |topic| < TOPIC_LEN && 0 !in topic
    ensures FreshAccept(CONFIG, StartRound(s, {UDP_FD}), Iterate(Publishing(topic)))
    ensures var s1, e := StartRound(s, {UDP_FD}), Publishing(topic);
            && Serve(CONFIG, s1, e).Running? && Serve(CONFIG, s1, e).out == []
            && EventOf(CONFIG, s1, Iterate(e)) == B.Publish(topic, PacketFor(e))
  {
    var s1, e := StartRound(s, {UDP_FD}), Publishing(topic);
    OnlyReady(s, fds, clients, subs, 1, UDP_FD);
    CStringUnique(e.datagram, topic);
    AsWrittenPassIsEmpty(CONFIG, s1.(table := NextFd(s1.table).1), topic, PacketFor(e));
  }

  lemma LeaveStep(s: Server, fds: seq<int>, clients: seq<Client>, k: nat, fd: int)
    requires At(s, fds, clients, []) && k < 3 + |fds| && ([STDIN, UDP_FD, TCP_FD] + fds)[k] == fd
    requires (forall i :: 0 <= i < k ==> ([STDIN, UDP_FD, TCP_FD] + fds)[i] != fd) && TCP_FD < fd
    requires 0 <= IndexByFd(clients, fd)
    ensures FreshAccept(CONFIG, StartRound(s, {fd}), Iterate(Leaving()))
    ensures var s' := StartRound(s, {fd}).(table := StartRound(s, {fd}).table.(idx := k + 1));
            && At(s', fds, clients, [])
            && Serve(CONFIG, StartRound(s, {fd}), Leaving()) == CloseConnection(CONFIG, s', fd)
  {
    OnlyReady(s, fds, clients, [], k, fd);
  }

  lemma MemberLeavesStep(s: Server, a: int, id: Str)
    requires At(s, [a], [Member(a, id)], []) && TCP_FD < a
    ensures FreshAccept(CONFIG, StartRound(s, {a}), Iterate(Leaving()))
    ensures var o := Serve(CONFIG, StartRound(s, {a}), Leaving());
            o.Running? && o.out == [] && At(o.server, [], [], []) && o.server.recvMsg == s.recvMsg
  {
    LeaveStep(s, [a], [Member(a, id)], 3, a);
    var t := StartRound(s, {a}).table;
    FdIndexIsFirst(t.(idx := 4), a, 0);
    assert t.slots[3].fd == a && FdIndex(t.(idx := 4), a) == 3;
  }

  /** A packet that claims nothing says an empty id, and leaves recvMsg as it was. */
  lemma SilenceIs(recvMsg: seq<Byte>)
    requires |recvMsg| == CTOS_LEN
    ensures var packet := Padded(Silence().received);
            && FromLe16(packet[..2]) == 0 && StoredMessage(AsWritten, recvMsg, packet) == recvMsg
            && MessageOf(packet)[0] == MSG_NEW && CString(MessageOf(packet)[1..]) == []
  {
    var packet := Padded(Silence().received);
    assert packet == Zeros(PACKET_MAXLEN) && packet[2..2] + recvMsg[0..] == recvMsg;
    assert MessageOf(packet) == Zeros(CTOS_LEN) && CString(Zeros(CTOS_LEN)[1..]) == [];
  }

  /** A new client says nothing, and the message left in recvMsg is taken for its own. */
  lemma SilenceStep(s: Server, fd: int, id: Str)
    requires At(s, [fd], [NewClient(fd)], []) && TCP_FD < fd && 0 < |id| < ID_MAXLEN && 0 !in id
    requires s.recvMsg == Shorn(ClientMessage(MSG_NEW, id))
    ensures FreshAccept(CONFIG, StartRound(s, {fd}), Iterate(Silence()))
    ensures var o := Serve(CONFIG, StartRound(s, {fd}), Silence());
            o.Running? && o.server.clients == [Member(fd, id)]
  {
    OnlyReady(s, [fd], [NewClient(fd)], [], 3, fd);
    SilenceIs(s.recvMsg);
    IdRoundTrip(id);
  }

  lemma SilenceMeans(s: Server, fd: int, id: Str)
    requires At(s, [fd], [NewClient(fd)], []) && TCP_FD < fd && 0 < |id| < ID_MAXLEN && 0 !in id
    requires s.recvMsg == Shorn(ClientMessage(MSG_NEW, id))
    ensures EventOf(CONFIG, StartRound(s, {fd}), Iterate(Silence())) == B.Said(fd, B.Hello([]))
    ensures !Unmixed(CONFIG, StartRound(s, {fd}), Iterate(Silence()))
  {
    OnlyReady(s, [fd], [NewClient(fd)], [], 3, fd);
    SilenceIs(s.recvMsg);
    IdRoundTrip(id);
  }

  // ---- runs

  ghost predicate FreshStart(start: Server) {
    |start.recvMsg| == CTOS_LEN && start == Start(CONFIG, start.recvMsg)
  }

  lemma StartReaches(start: Server)
    requires FreshStart(start)
    ensures At(start, [], [], []) && Reaches(start, [], start)
  {
  }

  /** One client, still new. */
  lemma OneClient(start: Server, fd: int) returns (ls: seq<Label>, s: Server)
    requires FreshStart(start) && TCP_FD < fd
    ensures Reaches(start, ls, s) && At(s, [fd], [NewClient(fd)], []) && WholeMessages(ls)
  {
    StartReaches(start);
    AcceptStep(start, [], [], [], fd);
    ReachesNext(start, [], start, TCP_FD, Accepting(fd));
    s := Serve(CONFIG, StartRound(start, {TCP_FD}), Accepting(fd)).server;
    ls := [] + Serving(TCP_FD, Accepting(fd));
    assert [] + [fd] == [fd] && [NewClient(fd)] + [] == [NewClient(fd)];
  }

  /** One client, connected under id. */
  lemma OneMember(start: Server, fd: int, id: Str) returns (ls: seq<Label>, s: Server)
    requires FreshStart(start) && TCP_FD < fd && 0 < |id| < ID_MAXLEN && 0 !in id
    ensures Reaches(start, ls, s) && At(s, [fd], [Member(fd, id)], [])
    ensures WholeMessages(ls) && s.recvMsg == Shorn(ClientMessage(MSG_NEW, id))
  {
    ls, s := OneClient(start, fd);
    SayingWhole(MSG_NEW, id);
    JoinStep(s, fd, id);
    ReachesNext(start, ls, s, fd, Saying(MSG_NEW, id));
    ls, s := ls + Serving(fd, Saying(MSG_NEW, id)), Serve(CONFIG, StartRound(s, {fd}), Saying(MSG_NEW, id)).server;
  }

  /** One client, with a subscription more. */
  lemma OneMore(start: Server, before: seq<Label>, s0: Server, fd: int, id: Str, subs: seq<Subscription>, topic: Str)
    returns (ls: seq<Label>, s: Server)
    requires FreshStart(start) && Reaches(start, before, s0) && At(s0, [fd], [Member(fd, id)], subs)
    requires WholeMessages(before)
    requires TCP_FD < fd && IsTopic(topic) && |topic| <= 48
    ensures Reaches(start, ls, s) && At(s, [fd], [Member(fd, id)], [Subscription(topic, id, 1)] + subs)
    ensures WholeMessages(ls)
  {
    SayingWhole(MSG_SUBSCRIBE, SubscribeText(topic, 1));
    var e := Saying(MSG_SUBSCRIBE, SubscribeText(topic, 1));
    SubscribeStep(s0, fd, id, subs, topic);
    ReachesNext(start, before, s0, fd, e);
    ls, s := before + Serving(fd, e), Serve(CONFIG, StartRound(s0, {fd}), e).server;
  }

  /** A client connects and subscribes, and a datagram on its topic arrives: one copy is due, and none
      is sent. */
  lemma DatagramIsLost(start: Server, fd: int, id: Str, topic: Str) returns (ls: seq<Label>, s: Server)
    requires FreshStart(start) && TCP_FD < fd && 0 < |id| < ID_MAXLEN && 0 !in id
    requires IsTopic(topic) && |topic| <= 48
    ensures Reaches(start, ls, s)
    ensures var (s1, e) := (StartRound(s, {UDP_FD}), Publishing(topic));
            var b := B.Run(B.Broker(map[], map[]), EventsOf(CONFIG, start, ls));
            && Serve(CONFIG, s1, e).Running? && Serve(CONFIG, s1, e).out == []
            && B.Due(b, EventOf(CONFIG, s1, Iterate(e)), fd, PacketFor(e)) == 1
  {
    var b := B.Broker(map[], map[]);
    ls, s := OneMember(start, fd, id);
    ls, s := OneMore(start, ls, s, fd, id, [], topic);
    PublishStep(s, [fd], [Member(fd, id)], s.subs, topic);
    StartRefines(CONFIG, start.recvMsg);
    RunInv(CONFIG, start, ls);
    WholeIsUnmixed(CONFIG, start, ls);
    RunIsRefined(CONFIG, start, b, ls);
    CopiesAreHeld(CONFIG, s, B.Run(b, EventsOf(CONFIG, start, ls)), topic, fd);
    assert s.subs[1..] == [];
  }

  /** A client subscribes to two topics and unsubscribes from the first: the tail is taken out of the
      list of subscriptions. */
  lemma FirstSubscriptionLeaves(start: Server, fd: int, id: Str, first: Str, second: Str) returns (ls: seq<Label>)
    requires FreshStart(start) && TCP_FD < fd && 0 < |id| < ID_MAXLEN && 0 !in id
    requires IsTopic(first) && IsTopic(second) && |first| <= 48 && |second| <= 48 && first != second
    ensures ProperRun(ls) && FreshRun(CONFIG, start, ls) && Run(CONFIG, start, ls) == Fault
  {
    var s;
    ls, s := OneMember(start, fd, id);
    ls, s := OneMore(start, ls, s, fd, id, [], first);
    ls, s := OneMore(start, ls, s, fd, id, [Subscription(first, id, 1)], second);
    UnsubscribeStep(s, fd, id, first, second);
    ReachesNext(start, ls, s, fd, Saying(MSG_UNSUBSCRIBE, first));
    ls := ls + Serving(fd, Saying(MSG_UNSUBSCRIBE, first));
  }

  /** Two connections, b after a. */
  lemma TwoClients(start: Server, a: int, b: int) returns (ls: seq<Label>, s: Server)
    requires FreshStart(start) && TCP_FD < a && TCP_FD < b && a != b
    ensures Reaches(start, ls, s) && At(s, [a, b], [NewClient(b), NewClient(a)], [])
  {
    ls, s := OneClient(start, a);
    AcceptStep(s, [a], [NewClient(a)], [], b);
    ReachesNext(start, ls, s, TCP_FD, Accepting(b));
    ls, s := ls + Serving(TCP_FD, Accepting(b)), Serve(CONFIG, StartRound(s, {TCP_FD}), Accepting(b)).server;
    assert [a] + [b] == [a, b] && [NewClient(b)] + [NewClient(a)] == [NewClient(b), NewClient(a)];
  }

  /** Two clients connect, and the first one leaves: the tail is taken out of the client list. */
  lemma OldestClientLeaves(start: Server, a: int, b: int) returns (ls: seq<Label>)
    requires FreshStart(start) && TCP_FD < a && TCP_FD < b && a != b
    ensures ProperRun(ls) && FreshRun(CONFIG, start, ls) && Run(CONFIG, start, ls) == Fault
  {
    var s;
    ls, s := TwoClients(start, a, b);
    LeaveStep(s, [a, b], [NewClient(b), NewClient(a)], 3, a);
    ReachesNext(start, ls, s, a, Leaving());
    ls := ls + Serving(a, Leaving());
  }

  lemma NewestLeavesStep(s: Server, a: int, b: int)
    requires At(s, [a, b], [NewClient(b), NewClient(a)], []) && TCP_FD < a && TCP_FD < b && a != b
    ensures FreshAccept(CONFIG, StartRound(s, {b}), Iterate(Leaving()))
    ensures var o := Serve(CONFIG, StartRound(s, {b}), Leaving());
            && o.Running? && o.out == [] && At(o.server, [a], [NewClient(a)], [])
            && o.server.table.slots[o.server.table.num].revents
  {
    LeaveStep(s, [a, b], [NewClient(b), NewClient(a)], 4, b);
    var t := StartRound(s, {b}).table;
    FdIndexIsFirst(t.(idx := 5), b, 0);
    assert t.slots[4].fd == b && FdIndex(t.(idx := 5), b) == 4;
    assert DropAt([NewClient(b), NewClient(a)], 0) == [NewClient(a)];
  }

  /** The last of two clients leaves and another one connects: the iterator hands the new connection out
      at once, although the poll reported nothing but the listener. */
  lemma AcceptedIsServedUnasked(start: Server, a: int, b: int, d: int) returns (ls: seq<Label>, s: Server)
    requires FreshStart(start) && TCP_FD < a && TCP_FD < b && TCP_FD < d && a != b && a != d
    ensures Reaches(start, ls, s) && 2 <= |ls| && ls[|ls| - 2..] == Serving(TCP_FD, Accepting(d))
    ensures NextFd(s.table).0 == d
  {
    ls, s := TwoClients(start, a, b);
    NewestLeavesStep(s, a, b);
    ReachesNext(start, ls, s, b, Leaving());
    ls, s := ls + Serving(b, Leaving()), Serve(CONFIG, StartRound(s, {b}), Leaving()).server;
    AcceptStep(s, [a], [NewClient(a)], [], d);
    ReachesNext(start, ls, s, TCP_FD, Accepting(d));
    ls, s := ls + Serving(TCP_FD, Accepting(d)), Serve(CONFIG, StartRound(s, {TCP_FD}), Accepting(d)).server;
    FirstReady(s.table, 4, 4);
  }

  /** A client connects under an id and leaves; another connects and sends a packet that claims no
      byte: it is connected under the id of the first, although it has named none. */
  lemma SilentClientTakesOver(start: Server, a: int, b: int, id: Str) returns (ls: seq<Label>, s: Server)
    requires FreshStart(start) && TCP_FD < a && TCP_FD < b && 0 < |id| < ID_MAXLEN && 0 !in id
    ensures Reaches(start, ls, s) && At(s, [b], [NewClient(b)], [])
    ensures var s1, l := StartRound(s, {b}), Iterate(Silence());
            && Serve(CONFIG, s1, Silence()).Running?
            && Serve(CONFIG, s1, Silence()).server.clients == [Member(b, id)]
            && EventOf(CONFIG, s1, l) == B.Said(b, B.Hello([])) && !Unmixed(CONFIG, s1, l)
  {
    ls, s := OneMember(start, a, id);
    MemberLeavesStep(s, a, id);
    ReachesNext(start, ls, s, a, Leaving());
    ls, s := ls + Serving(a, Leaving()), Serve(CONFIG, StartRound(s, {a}), Leaving()).server;
    AcceptStep(s, [], [], [], b);
    ReachesNext(start, ls, s, TCP_FD, Accepting(b));
    ls, s := ls + Serving(TCP_FD, Accepting(b)), Serve(CONFIG, StartRound(s, {TCP_FD}), Accepting(b)).server;
    assert [] + [b] == [b] && [NewClient(b)] + [] == [NewClient(b)];
    SilenceStep(s, b, id);
    SilenceMeans(s, b, id);
  }
}
