/** The event loop refines the abstract broker: the repaired one on every run, the one as written
    exactly under the guards of the steps that go wrong. */
module Refinement {
  import opened Base
  import opened Clients
  import opened Subscriptions
  import opened Pollers
  import opened Packets
  import opened Payloads
  import opened ServerModel
  import opened Invariant
  import B = Broker

  function PeerOf(client: Client): B.Peer {
    if client.state.New? then B.Fresh else B.Member(client.id)
  }

  /** How many subscriptions of id to topic the list holds. */
  function Held(subs: seq<Subscription>, topic: Str, id: Str): nat {
    if subs == [] then 0
    else (if subs[0].topic == topic && subs[0].id == id then 1 else 0) + Held(subs[1..], topic, id)
  }

  ghost predicate PeersAgree(clients: seq<Client>, peers: map<int, B.Peer>) {
    && (forall i :: 0 <= i < |clients| ==> clients[i].fd in peers && peers[clients[i].fd] == PeerOf(clients[i]))
    && (forall fd :: fd in peers ==> 0 <= IndexByFd(clients, fd))
  }

  ghost predicate CountsAgree(subs: seq<Subscription>, b: B.Broker) {
    forall topic, id :: B.Count(b, topic, id) == Held(subs, topic, id)
  }

  ghost predicate Refines(s: Server, b: B.Broker) {
    PeersAgree(s.clients, b.peers) && CountsAgree(s.subs, b)
  }

  // ---- what an iteration means to the broker

  /** A subscription that names no topic, or one too long for its buffers, asks for nothing. */
  function Meaning(recvMsg: seq<Byte>): B.Message
    requires |recvMsg| == CTOS_LEN
  {
    if recvMsg[0] == MSG_NEW then B.Hello(CString(recvMsg[1..]))
    else if recvMsg[0] == MSG_SUBSCRIBE then
      match Scan(recvMsg[1..])
      case Scanned(Some(topic), _) => B.Subscribe(topic)
      case _ => B.Other
    else if recvMsg[0] == MSG_UNSUBSCRIBE then B.Unsubscribe(CString(recvMsg[1..]))
    else B.Other
  }

  function EventOf(c: Config, s: Server, l: Label): B.Event
    requires Shape(c, s) && (l.Iterate? ==> Proper(l.input))
  {
    if l.Poll? then B.Nothing
    else
      var (e, fd) := (l.input, NextFd(s.table).0);
      if fd == -1 || fd == STDIN then B.Nothing
      else if fd == c.udpFd then B.Publish(TopicOf(e.datagram), PacketFor(e))
      else if fd == c.tcpFd then if s.table.num == MAX_CONNECTIONS then B.Nothing else B.Connect(e.accepted)
      else if e.received == [] then B.Leave(fd)
      else if Storable(Padded(e.received)) then B.Said(fd, Meaning(MessageOf(Padded(e.received))))
      else B.Nothing
  }

  /** The descriptor of a client connection. */
  ghost predicate ClientTurn(c: Config, s: Server)
    requires Shape(c, s)
  {
    NextFd(s.table).0 !in {-1, STDIN, c.udpFd, c.tcpFd}
  }

  /** A packet came from a client, and fits. */
  ghost predicate Hears(c: Config, s: Server, l: Label)
    requires Shape(c, s) && (l.Iterate? ==> Proper(l.input))
  {
    l.Iterate? && ClientTurn(c, s) && l.input.received != [] && Storable(Padded(l.input.received))
  }

  /** The event the code acts on: it reads recvMsg, and not the packet. */
  ghost function ActedOn(c: Config, s: Server, l: Label): B.Event
    requires Shape(c, s) && (l.Iterate? ==> Proper(l.input))
  {
    if Hears(c, s, l) then
      B.Said(NextFd(s.table).0, Meaning(StoredMessage(c.edition, s.recvMsg, Padded(l.input.received))))
    else EventOf(c, s, l)
  }

  /** What a message from the client at position k does to the lists. */
  function EffectAt(s: Server, k: nat, m: seq<Byte>): B.Effect
    requires k < |s.clients| && |m| == CTOS_LEN
  {
    if s.clients[k].state.New? then
      if m[0] != MSG_NEW then B.Ignored
      else if 0 <= IndexById(s.clients, CString(m[1..])) then B.Ends
      else B.Joins(CString(m[1..]))
    else if m[0] == MSG_SUBSCRIBE then
      match Scan(m[1..])
      case Scanned(Some(topic), _) => B.Adds(topic)
      case _ => B.Ignored
    else if m[0] == MSG_UNSUBSCRIBE && 0 <= IndexOfSub(s.subs, CString(m[1..]), s.clients[k].id) then
      B.Drops(CString(m[1..]))
    else B.Ignored
  }

  /** What an earlier message has left in recvMsg makes no difference: acting on what is stored there
      has the effect of the message that the packet carries. */
  ghost predicate Unmixed(c: Config, s: Server, l: Label)
    requires Shape(c, s) && (l.Iterate? ==> Proper(l.input))
  {
    Hears(c, s, l) ==>
      var k, packet := IndexByFd(s.clients, NextFd(s.table).0), Padded(l.input.received);
      0 <= k ==>
        EffectAt(s, k, StoredMessage(c.edition, s.recvMsg, packet)) == EffectAt(s, k, MessageOf(packet))
  }

  ghost predicate UnmixedRun(c: Config, s: Server, ls: seq<Label>)
    requires Shape(c, s) && ProperRun(ls)
    decreases |ls|
  {
    ls != [] ==>
      && Unmixed(c, s, ls[0])
      && (Step(c, s, ls[0]).Running? ==> UnmixedRun(c, Step(c, s, ls[0]).server, ls[1..]))
  }

  /** Every packet received claims to be a whole client message, as those do that the client composes. */
  ghost predicate WholeMessages(ls: seq<Label>)
    requires ProperRun(ls)
  {
    forall i :: 0 <= i < |ls| && ls[i].Iterate? && ls[i].input.received != [] ==>
      FromLe16(Padded(ls[i].input.received)[..2]) == CTOS_LEN
  }

  /** In the repaired code, and among whole messages, nothing is ever mixed. */
  lemma {:induction false} WholeIsUnmixed(c: Config, s: Server, ls: seq<Label>)
    requires Shape(c, s) && ProperRun(ls) && (c.edition.Repaired? || WholeMessages(ls))
    ensures UnmixedRun(c, s, ls)
    decreases |ls|
  {
    if ls != [] {
      if Hears(c, s, ls[0]) {
        OwnMessageIff(c.edition, Padded(ls[0].input.received));
      }
      if Step(c, s, ls[0]).Running? {
        WholeIsUnmixed(c, Step(c, s, ls[0]).server, ls[1..]);
      }
    }
  }

  // ---- the state side, in both editions

  lemma {:induction false} HeldAfterDrop(subs: seq<Subscription>, k: nat, topic: Str, id: Str)
    requires k < |subs|
    ensures Held(subs, topic, id)
            == Held(DropAt(subs, k), topic, id) + if subs[k].topic == topic && subs[k].id == id then 1 else 0
  {
    if k == 0 {
      assert DropAt(subs, 0) == subs[1..];
    } else {
      assert DropAt(subs, k)[1..] == DropAt(subs[1..], k - 1);
      HeldAfterDrop(subs[1..], k - 1, topic, id);
    }
  }

  lemma {:induction false} HeldIfFound(subs: seq<Subscription>, topic: Str, id: Str)
    ensures Held(subs, topic, id) == 0 <==> IndexOfSub(subs, topic, id) < 0
  {
    if subs != [] {
      HeldIfFound(subs[1..], topic, id);
    }
  }

  lemma PeersAfterClose(c: Config, clients: seq<Client>, peers: map<int, B.Peer>, k: nat)
    requires DistinctFds(c, clients) && PeersAgree(clients, peers) && k < |clients|
    ensures PeersAgree(DropAt(clients, k), peers - {clients[k].fd})
  {
    var rest := DropAt(clients, k);
    forall i | 0 <= i < |rest|
      ensures rest[i].fd in peers - {clients[k].fd} && peers[rest[i].fd] == PeerOf(rest[i])
    {
      assert rest[i] == clients[if i < k then i else i + 1];
    }
    forall fd | fd in peers - {clients[k].fd}
      ensures 0 <= IndexByFd(rest, fd)
    {
      var j := IndexByFd(clients, fd);
      assert clients[j].fd == fd && j != k;
      assert rest[if j < k then j else j - 1] == clients[j];
    }
  }

  lemma PeersAfterAccept(clients: seq<Client>, peers: map<int, B.Peer>, client: Client)
    requires PeersAgree(clients, peers) && client.state.New? && IndexByFd(clients, client.fd) < 0
    ensures PeersAgree([client] + clients, peers[client.fd := B.Fresh])
  {
    var all := [client] + clients;
    forall i | 0 <= i < |all|
      ensures all[i].fd in peers[client.fd := B.Fresh] && peers[client.fd := B.Fresh][all[i].fd] == PeerOf(all[i])
    {
      assert 0 < i ==> all[i] == clients[i - 1];
    }
    forall fd | fd in peers[client.fd := B.Fresh]
      ensures 0 <= IndexByFd(all, fd)
    {
      if fd != client.fd {
        assert all[IndexByFd(clients, fd) + 1].fd == fd;
      }
    }
  }

  lemma PeersAfterJoin(c: Config, clients: seq<Client>, peers: map<int, B.Peer>, k: nat, id: Str)
    requires DistinctFds(c, clients) && PeersAgree(clients, peers) && k < |clients|
    ensures PeersAgree(clients[k := clients[k].(state := Connected, id := id)], peers[clients[k].fd := B.Member(id)])
  {
    var after := clients[k := clients[k].(state := Connected, id := id)];
    forall fd | fd in peers[clients[k].fd := B.Member(id)]
      ensures 0 <= IndexByFd(after, fd)
    {
      var j := if fd == clients[k].fd then k else IndexByFd(clients, fd);
      assert after[j].fd == fd;
    }
  }

  /** An id is taken among the peers exactly when the list search finds it, unless it is empty. */
  lemma TakenIffFound(c: Config, clients: seq<Client>, b: B.Broker, id: Str)
    requires DistinctFds(c, clients) && Identities(clients) && PeersAgree(clients, b.peers) && id != []
    ensures B.Taken(b, id) <==> 0 <= IndexById(clients, id)
  {
    var k := IndexById(clients, id);
    if 0 <= k {
      assert b.peers[clients[k].fd] == B.Member(id);
    } else {
      forall fd | fd in b.peers
        ensures b.peers[fd] != B.Member(id)
      {
        assert b.peers[fd] == PeerOf(clients[IndexByFd(clients, fd)]);
      }
    }
  }

  /** A refused Hello, because its id is connected or empty, only closes its own connection. */
  lemma RefusalRefines(c: Config, s: Server, b: B.Broker, fd: int, id: Str)
    requires Inv(c, s) && Refines(s, b) && 0 <= IndexById(s.clients, id)
    requires 0 <= IndexByFd(s.clients, fd) && s.clients[IndexByFd(s.clients, fd)].state.New?
    ensures var o := CloseConnection(c, s, fd);
            o.Running? ==> o.out == [] && Refines(o.server, B.Step(b, B.Said(fd, B.Hello(id))))
  {
    var k := IndexByFd(s.clients, fd);
    PeersAfterClose(c, s.clients, b.peers, k);
    assert b.peers[fd] == B.Fresh;
    if id != [] {
      TakenIffFound(c, s.clients, b, id);
    }
    assert B.Step(b, B.Said(fd, B.Hello(id))) == b.(peers := b.peers - {fd});
  }

  lemma PeersJoin(c: Config, s: Server, b: B.Broker, fd: int, id: Str)
    requires Inv(c, s) && Refines(s, b) && IndexById(s.clients, id) < 0
    requires 0 <= IndexByFd(s.clients, fd) && s.clients[IndexByFd(s.clients, fd)].state.New?
    ensures var k := IndexByFd(s.clients, fd);
            Refines(s.(clients := s.clients[k := s.clients[k].(state := Connected, id := id)]),
                    B.Step(b, B.Said(fd, B.Hello(id))))
  {
    var k := IndexByFd(s.clients, fd);
    assert s.clients[k].id == [];
    TakenIffFound(c, s.clients, b, id);
    PeersAfterJoin(c, s.clients, b.peers, k, id);
    assert b.peers[fd] == B.Fresh;
    assert B.Step(b, B.Said(fd, B.Hello(id))) == b.(peers := b.peers[fd := B.Member(id)]);
  }

  /** A Hello under an id that is free joins, exactly when the id fits its buffers. */
  lemma JoinRefines(c: Config, s: Server, b: B.Broker, fd: int)
    requires Inv(c, s) && Refines(s, b) && s.recvMsg[0] == MSG_NEW
    requires 0 <= IndexByFd(s.clients, fd) && s.clients[IndexByFd(s.clients, fd)].state.New?
    requires IndexById(s.clients, CString(s.recvMsg[1..])) < 0
    ensures var o := UpdateClient(c, s, fd);
            && (o.Running? <==> |CString(s.recvMsg[1..])| < ID_MAXLEN)
            && (o.Running? ==> o.out == [] && Refines(o.server, B.Step(b, B.Said(fd, Meaning(s.recvMsg)))))
  {
    PeersJoin(c, s, b, fd, CString(s.recvMsg[1..]));
  }

  lemma UpdateRefines(c: Config, s: Server, b: B.Broker, fd: int)
    requires Inv(c, s) && Refines(s, b)
    requires 0 <= IndexByFd(s.clients, fd) && s.clients[IndexByFd(s.clients, fd)].state.New?
    ensures var o := UpdateClient(c, s, fd);
            o.Running? ==> o.out == [] && Refines(o.server, B.Step(b, B.Said(fd, Meaning(s.recvMsg))))
  {
    var id, k := CString(s.recvMsg[1..]), IndexByFd(s.clients, fd);
    if s.recvMsg[0] != MSG_NEW {
      assert b.peers[s.clients[k].fd] == B.Fresh;
    } else if 0 <= IndexById(s.clients, id) {
      RefusalRefines(c, s, b, fd, id);
    } else {
      JoinRefines(c, s, b, fd);
    }
  }

  lemma MemberIs(s: Server, b: B.Broker, fd: int)
    requires Refines(s, b)
    requires 0 <= IndexByFd(s.clients, fd) && s.clients[IndexByFd(s.clients, fd)].state.Connected?
    ensures fd in b.peers && b.peers[fd] == B.Member(s.clients[IndexByFd(s.clients, fd)].id)
  {
  }

  lemma CountsAfterAdd(subs: seq<Subscription>, b: B.Broker, sub: Subscription)
    requires CountsAgree(subs, b)
    ensures var (t, i) := (sub.topic, sub.id);
            CountsAgree([sub] + subs, b.(counts := b.counts[(t, i) := B.Count(b, t, i) + 1]))
  {
    assert ([sub] + subs)[1..] == subs;
    forall topic, id
      ensures Held([sub] + subs, topic, id)
              == B.Count(b, topic, id) + if sub.topic == topic && sub.id == id then 1 else 0
    {
      assert B.Count(b, topic, id) == Held(subs, topic, id);
    }
  }

  /** A subscription is one more of its topic and id and changes no other count. It goes wrong exactly
      when it names no topic, or arguments that overrun their buffers. */
  lemma SubscribeRefines(c: Config, s: Server, b: B.Broker, fd: int, e: Input)
    requires Inv(c, s) && Refines(s, b) && s.recvMsg[0] == MSG_SUBSCRIBE
    requires 0 <= IndexByFd(s.clients, fd) && s.clients[IndexByFd(s.clients, fd)].state.Connected?
    ensures var o, args := Subscribe(c, s, fd, e), Scan(s.recvMsg[1..]);
            && (o.Running? <==> args.Scanned? && args.topic.Some?)
            && (o.Running? ==> o.out == [] && Refines(o.server, B.Step(b, B.Said(fd, Meaning(s.recvMsg)))))
  {
    var request := Requested(s, fd, e);
    if request.Wanted? {
      MemberIs(s, b, fd);
      CountsAfterAdd(s.subs, b, request.sub);
      B.MemberSubscribes(b, fd, request.sub.id, request.sub.topic);
      assert Subscribe(c, s, fd, e) == Running(Added(s, request.sub), []);
    }
  }

  lemma CountsAfterDrop(subs: seq<Subscription>, b: B.Broker, j: nat)
    requires CountsAgree(subs, b) && j < |subs|
    ensures var (t, i) := (subs[j].topic, subs[j].id);
            && 0 < B.Count(b, t, i)
            && CountsAgree(DropAt(subs, j), b.(counts := b.counts[(t, i) := B.Count(b, t, i) - 1]))
  {
    forall topic, id
      ensures B.Count(b, topic, id)
              == Held(DropAt(subs, j), topic, id) + if subs[j].topic == topic && subs[j].id == id then 1 else 0
    {
      assert B.Count(b, topic, id) == Held(subs, topic, id);
      HeldAfterDrop(subs, j, topic, id);
    }
  }

  lemma UnsubscribeRefines(c: Config, s: Server, b: B.Broker, fd: int)
    requires Inv(c, s) && Refines(s, b) && s.recvMsg[0] == MSG_UNSUBSCRIBE
    requires 0 <= IndexByFd(s.clients, fd) && s.clients[IndexByFd(s.clients, fd)].state.Connected?
    ensures var o := Unsubscribe(c, s, fd);
            o.Running? ==> o.out == [] && Refines(o.server, B.Step(b, B.Said(fd, Meaning(s.recvMsg))))
  {
    var t, i := CString(s.recvMsg[1..]), s.clients[IndexByFd(s.clients, fd)].id;
    var j := IndexOfSub(s.subs, t, i);
    HeldIfFound(s.subs, t, i);
    assert B.Count(b, t, i) == Held(s.subs, t, i);
    MemberIs(s, b, fd);
    B.MemberUnsubscribes(b, fd, i, t);
    if 0 <= j {
      CountsAfterDrop(s.subs, b, j);
    }
  }

  lemma HandleRefines(c: Config, s: Server, b: B.Broker, fd: int, e: Input)
    requires Inv(c, s) && Refines(s, b) && 0 <= IndexByFd(s.clients, fd)
    ensures var o := HandleMessage(c, s, fd, e);
            o.Running? ==> o.out == [] && Refines(o.server, B.Step(b, B.Said(fd, Meaning(s.recvMsg))))
  {
    var k := IndexByFd(s.clients, fd);
    if s.clients[k].state.New? {
      UpdateRefines(c, s, b, fd);
    } else if s.recvMsg[0] == MSG_SUBSCRIBE {
      SubscribeRefines(c, s, b, fd, e);
    } else if s.recvMsg[0] == MSG_UNSUBSCRIBE {
      UnsubscribeRefines(c, s, b, fd);
    }
  }

  lemma ServeClientRefines(c: Config, s: Server, b: B.Broker, fd: int, e: Input)
    requires Inv(c, s) && Refines(s, b) && Proper(e) && 0 <= IndexByFd(s.clients, fd)
    ensures var o := ServeClient(c, s, fd, e);
            o.Running? ==>
              && o.out == []
              && (e.received == [] ==> Refines(o.server, B.Step(b, B.Leave(fd))))
              && (e.received != [] ==>
                    && Storable(Padded(e.received))
                    && var m := StoredMessage(c.edition, s.recvMsg, Padded(e.received));
                    Refines(o.server, B.Step(b, B.Said(fd, Meaning(m)))))
  {
    if e.received == [] {
      PeersAfterClose(c, s.clients, b.peers, IndexByFd(s.clients, fd));
    } else if Storable(Padded(e.received)) {
      var s' := s.(recvMsg := StoredMessage(c.edition, s.recvMsg, Padded(e.received)));
      HandleRefines(c, s', b, fd, e);
      assert !e.recvFails ==> ServeClient(c, s, fd, e) == HandleMessage(c, s', fd, e);
    }
  }

  lemma AcceptRefines(c: Config, s: Server, b: B.Broker, e: Input)
    requires Inv(c, s) && Refines(s, b)
    requires 0 <= e.accepted ==> IndexByFd(s.clients, e.accepted) < 0
    ensures var o := AcceptConnection(c, s, e);
            o.Running? ==>
              && o.out == []
              && Refines(o.server, if s.table.num == MAX_CONNECTIONS then b else B.Step(b, B.Connect(e.accepted)))
  {
    if 0 <= e.accepted {
      PeersAfterAccept(s.clients, b.peers, Client(New, e.accepted, [], e.ip, e.port));
    }
  }

  lemma ActedOnByClient(c: Config, s: Server, e: Input)
    requires Shape(c, s) && Proper(e) && ClientTurn(c, s)
    ensures var ev, fd := ActedOn(c, s, Iterate(e)), NextFd(s.table).0;
            if e.received == [] then ev == B.Leave(fd)
            else
              Storable(Padded(e.received)) ==>
                ev == B.Said(fd, Meaning(StoredMessage(c.edition, s.recvMsg, Padded(e.received))))
  {
  }

  lemma ClientTurnRefines(c: Config, s: Server, b: B.Broker, e: Input)
    requires Inv(c, s) && Refines(s, b) && Proper(e) && ClientTurn(c, s)
    ensures var o, ev := Serve(c, s, e), ActedOn(c, s, Iterate(e));
            && !o.Idle?
            && (o.Running? ==> o.out == [] && Refines(o.server, B.Step(b, ev)))
  {
    NextIsKnown(c, s);
    var (fd, t) := NextFd(s.table);
    var s' := s.(table := t);
    assert Refines(s', b);
    ServeClientRefines(c, s', b, fd, e);
    ActedOnByClient(c, s, e);
    assert Serve(c, s, e) == ServeClient(c, s', fd, e);
  }

  lemma ListenerTurnRefines(c: Config, s: Server, b: B.Broker, e: Input)
    requires Inv(c, s) && Refines(s, b) && Proper(e) && FreshAccept(c, s, Iterate(e)) && NextFd(s.table).0 == c.tcpFd
    ensures var o, ev := Serve(c, s, e), EventOf(c, s, Iterate(e));
            && !o.Idle? && !ev.Publish?
            && (o.Running? ==> o.out == [] && Refines(o.server, B.Step(b, ev)))
  {
    NextIsKnown(c, s);
    var s' := s.(table := NextFd(s.table).1);
    assert Refines(s', b);
    AcceptRefines(c, s', b, e);
    assert Serve(c, s, e) == AcceptConnection(c, s', e);
  }

  lemma OwnTurnRefines(c: Config, s: Server, b: B.Broker, e: Input)
    requires Inv(c, s) && Refines(s, b) && Proper(e) && FreshAccept(c, s, Iterate(e)) && !ClientTurn(c, s)
    ensures var o, ev := Serve(c, s, e), EventOf(c, s, Iterate(e));
            && (o.Running? || o.Idle? ==> Refines(o.server, B.Step(b, ev)))
            && (o.Running? && !ev.Publish? ==> o.out == [])
  {
    if NextFd(s.table).0 == c.tcpFd {
      ListenerTurnRefines(c, s, b, e);
    } else {
      assert B.Step(b, EventOf(c, s, Iterate(e))) == b;
    }
  }

  /** A step that stays within defined behaviour takes the step of the event the code acts on. */
  lemma ActedOnRefines(c: Config, s: Server, b: B.Broker, l: Label)
    requires Inv(c, s) && Refines(s, b)
    requires (l.Iterate? ==> Proper(l.input)) && FreshAccept(c, s, l)
    ensures var o, ev := Step(c, s, l), ActedOn(c, s, l);
            o.Running? ==> Refines(o.server, B.Step(b, ev)) && (!ev.Publish? ==> o.out == [])
  {
    if l.Iterate? {
      if ClientTurn(c, s) {
        ClientTurnRefines(c, s, b, l.input);
      } else {
        OwnTurnRefines(c, s, b, l.input);
      }
    }
  }

  /** The effect of a message, as the lists decide it, is its effect on the broker. */
  lemma EffectIs(c: Config, s: Server, b: B.Broker, fd: int, m: seq<Byte>)
    requires Inv(c, s) && Refines(s, b) && 0 <= IndexByFd(s.clients, fd) && |m| == CTOS_LEN
    ensures fd in b.peers && B.EffectOf(b, fd, Meaning(m)) == EffectAt(s, IndexByFd(s.clients, fd), m)
  {
    var client, text := s.clients[IndexByFd(s.clients, fd)], CString(m[1..]);
    assert b.peers[client.fd] == PeerOf(client);
    if client.state.New? {
      if text != [] {
        TakenIffFound(c, s.clients, b, text);
      }
    } else {
      HeldIfFound(s.subs, text, client.id);
      assert B.Count(b, text, client.id) == Held(s.subs, text, client.id);
    }
  }

  /** A server stands for the brokers that cannot be told apart from one it stands for, and no others. */
  lemma RefinesAlike(s: Server, b1: B.Broker, b2: B.Broker)
    requires Refines(s, b1)
    ensures Refines(s, b2) <==> B.Alike(b1, b2)
  {
    if Refines(s, b2) {
      forall fd
        ensures fd in b1.peers <==> fd in b2.peers
        ensures fd in b1.peers && fd in b2.peers ==> b1.peers[fd] == b2.peers[fd]
      {
        assert 0 <= IndexByFd(s.clients, fd) ==> fd in b1.peers && fd in b2.peers;
        assert fd in b1.peers && fd in b2.peers ==> b1.peers[fd] == PeerOf(s.clients[IndexByFd(s.clients, fd)]);
      }
      forall topic, id
        ensures B.Count(b1, topic, id) == B.Count(b2, topic, id)
      {
        assert B.Count(b1, topic, id) == Held(s.subs, topic, id);
      }
    }
  }

  lemma SameEffect(c: Config, s: Server, b: B.Broker, fd: int, m1: seq<Byte>, m2: seq<Byte>,
                   said1: B.Message, said2: B.Message)
    requires Inv(c, s) && Refines(s, b) && 0 <= IndexByFd(s.clients, fd) && |m1| == CTOS_LEN == |m2|
    requires said1 == Meaning(m1) && said2 == Meaning(m2)
    ensures var k := IndexByFd(s.clients, fd);
            B.Alike(B.Step(b, B.Said(fd, said1)), B.Step(b, B.Said(fd, said2)))
            <==> EffectAt(s, k, m1) == EffectAt(s, k, m2)
  {
    EffectIs(c, s, b, fd, m1);
    EffectIs(c, s, b, fd, m2);
    B.AlikeIffSameEffect(b, fd, said1, said2);
  }

  /** The code acts as the packet says exactly when nothing is mixed. */
  lemma ActedAsSaidIff(c: Config, s: Server, b: B.Broker, l: Label)
    requires Inv(c, s) && Refines(s, b) && (l.Iterate? ==> Proper(l.input))
    ensures B.Alike(B.Step(b, ActedOn(c, s, l)), B.Step(b, EventOf(c, s, l))) <==> Unmixed(c, s, l)
  {
    if Hears(c, s, l) {
      NextIsKnown(c, s);
      var packet := Padded(l.input.received);
      var m1, m2 := StoredMessage(c.edition, s.recvMsg, packet), MessageOf(packet);
      SameEffect(c, s, b, NextFd(s.table).0, m1, m2, Meaning(m1), Meaning(m2));
    }
  }

  /** Whatever the edition, a step that stays within defined behaviour takes the broker's step for what
      the packet says, exactly when nothing is mixed; and only a datagram makes it send. */
  lemma StepRefines(c: Config, s: Server, b: B.Broker, l: Label)
    requires Inv(c, s) && Refines(s, b)
    requires (l.Iterate? ==> Proper(l.input)) && FreshAccept(c, s, l)
    ensures var o, ev := Step(c, s, l), EventOf(c, s, l);
            o.Running? ==>
              && (Refines(o.server, B.Step(b, ev)) <==> Unmixed(c, s, l))
              && (!ev.Publish? ==> o.out == [])
  {
    ActedOnRefines(c, s, b, l);
    ActedAsSaidIff(c, s, b, l);
    var o := Step(c, s, l);
    if o.Running? {
      RefinesAlike(o.server, B.Step(b, ActedOn(c, s, l)), B.Step(b, EventOf(c, s, l)));
    }
  }

  // ---- the deliveries

  /** A pass hands the packet to each connected client once for each of its subscriptions to the
      topic, to no one else, and hands out nothing but the packet. */
  lemma {:induction false} PassDelivers(c: Config, clients: seq<Client>, subs: seq<Subscription>, topic: Str,
                                        packet: seq<Byte>, fd: int, p: seq<Byte>)
    requires DistinctFds(c, clients) && Identities(clients) && Named(subs)
    requires Pass(c.edition, clients, subs, topic, packet).Sent?
    ensures var k := IndexByFd(clients, fd);
            multiset(Pass(c.edition, clients, subs, topic, packet).out)[Delivery(fd, p)]
            == if p == packet && 0 <= k then Held(subs, topic, clients[k].id) else 0
  {
    if subs != [] {
      PassDelivers(c, clients, subs[1..], topic, packet, fd, p);
      var j, k := IndexById(clients, subs[0].id), IndexByFd(clients, fd);
      if subs[0].topic == topic && 0 <= j {
        var rest := Pass(c.edition, clients, subs[1..], topic, packet).out;
        assert Pass(c.edition, clients, subs, topic, packet).out == [Delivery(clients[j].fd, packet)] + rest;
        SubscriberIs(c, clients, subs[0].id, j, fd);
      }
    }
  }

  lemma SubscriberIs(c: Config, clients: seq<Client>, id: Str, j: nat, fd: int)
    requires DistinctFds(c, clients) && Identities(clients) && id != [] && j < |clients| && clients[j].id == id
    ensures var k := IndexByFd(clients, fd);
            clients[j].fd == fd <==> 0 <= k && clients[k].id == id
  {
  }

  lemma {:induction false} RepairedPassIsSent(clients: seq<Client>, subs: seq<Subscription>, topic: Str,
                                              packet: seq<Byte>)
    ensures Pass(Repaired, clients, subs, topic, packet).Sent?
  {
    if subs != [] {
      RepairedPassIsSent(clients, subs[1..], topic, packet);
    }
  }

  /** Copies in the broker are subscriptions held in the list. */
  lemma CopiesAreHeld(c: Config, s: Server, b: B.Broker, topic: Str, fd: int)
    requires Inv(c, s) && Refines(s, b)
    ensures var k := IndexByFd(s.clients, fd);
            B.Copies(b, topic, fd) == if 0 <= k then Held(s.subs, topic, s.clients[k].id) else 0
  {
    var k := IndexByFd(s.clients, fd);
    if 0 <= k {
      if s.clients[k].state.New? {
        HeldIfFound(s.subs, topic, []);
      }
      assert B.Count(b, topic, s.clients[k].id) == Held(s.subs, topic, s.clients[k].id);
    }
  }

  /** A step hands out exactly what is due in the broker. */
  ghost predicate Delivers(b: B.Broker, e: B.Event, out: seq<Delivery>) {
    forall fd, p :: multiset(out)[Delivery(fd, p)] == B.Due(b, e, fd, p)
  }

  lemma RepairedDelivers(c: Config, s: Server, b: B.Broker, l: Label)
    requires c.edition.Repaired? && Inv(c, s) && Refines(s, b)
    requires (l.Iterate? ==> Proper(l.input)) && FreshAccept(c, s, l)
    ensures Step(c, s, l).Running? ==> Delivers(b, EventOf(c, s, l), Step(c, s, l).out)
  {
    var o, ev := Step(c, s, l), EventOf(c, s, l);
    StepRefines(c, s, b, l);
    if o.Running? && ev.Publish? {
      assert s.subs[0..] == s.subs;
      RepairedPassIsSent(s.clients, s.subs, ev.topic, ev.packet);
      assert o.out == Pass(Repaired, s.clients, s.subs, ev.topic, ev.packet).out;
      forall fd, p
        ensures multiset(o.out)[Delivery(fd, p)] == B.Due(b, ev, fd, p)
      {
        PassDelivers(c, s.clients, s.subs, ev.topic, ev.packet, fd, p);
        CopiesAreHeld(c, s, b, ev.topic, fd);
      }
    }
  }

  // ---- runs

  function EventsOf(c: Config, s: Server, ls: seq<Label>): seq<B.Event>
    requires Shape(c, s) && ProperRun(ls)
    decreases |ls|
  {
    if ls == [] then []
    else
      [EventOf(c, s, ls[0])]
      + match Step(c, s, ls[0])
        case Running(s', _) => EventsOf(c, s', ls[1..])
        case _ => []
  }

  /** Forward simulation over runs of either edition: as long as the program runs, its lists stand for
      the broker after what the packets said. */
  lemma {:induction false} RunIsRefined(c: Config, s: Server, b: B.Broker, ls: seq<Label>)
    requires Inv(c, s) && Refines(s, b) && ProperRun(ls) && FreshRun(c, s, ls) && UnmixedRun(c, s, ls)
    ensures Run(c, s, ls).Running? ==> Refines(Run(c, s, ls).server, B.Run(b, EventsOf(c, s, ls)))
    decreases |ls|
  {
    if ls != [] && Step(c, s, ls[0]).Running? {
      var s', e := Step(c, s, ls[0]).server, EventOf(c, s, ls[0]);
      StepInv(c, s, ls[0]);
      StepRefines(c, s, b, ls[0]);
      RunIsRefined(c, s', B.Step(b, e), ls[1..]);
      var rest := EventsOf(c, s', ls[1..]);
      assert EventsOf(c, s, ls) == [e] + rest && ([e] + rest)[1..] == rest;
    }
  }

  lemma {:induction false} RunDelivers(c: Config, s: Server, b: B.Broker, ls: seq<Label>, fd: int, p: seq<Byte>)
    requires c.edition.Repaired? && Inv(c, s) && Refines(s, b) && ProperRun(ls) && FreshRun(c, s, ls)
    ensures Run(c, s, ls).Running? ==>
              multiset(Run(c, s, ls).out)[Delivery(fd, p)] == B.DueOver(b, EventsOf(c, s, ls), fd, p)
    decreases |ls|
  {
    if ls != [] && Run(c, s, ls).Running? {
      var o, e := Step(c, s, ls[0]), EventOf(c, s, ls[0]);
      StepInv(c, s, ls[0]);
      StepRefines(c, s, b, ls[0]);
      RepairedDelivers(c, s, b, ls[0]);
      RunDelivers(c, o.server, B.Step(b, e), ls[1..], fd, p);
      var rest := EventsOf(c, o.server, ls[1..]);
      assert EventsOf(c, s, ls) == [e] + rest && ([e] + rest)[1..] == rest;
      assert multiset(o.out)[Delivery(fd, p)] == B.Due(b, e, fd, p);
    }
  }

  /** Delivery refinement: over every run, each packet has gone out on each descriptor exactly as
      often as it was due there, and the lists still stand for the broker. */
  lemma RunRefines(c: Config, s: Server, b: B.Broker, ls: seq<Label>)
    requires c.edition.Repaired? && Inv(c, s) && Refines(s, b)
    requires ProperRun(ls) && FreshRun(c, s, ls)
    ensures var o, es := Run(c, s, ls), EventsOf(c, s, ls);
            o.Running? ==>
              && Refines(o.server, B.Run(b, es))
              && forall fd, p :: multiset(o.out)[Delivery(fd, p)] == B.DueOver(b, es, fd, p)
  {
    var o, es := Run(c, s, ls), EventsOf(c, s, ls);
    WholeIsUnmixed(c, s, ls);
    RunIsRefined(c, s, b, ls);
    if o.Running? {
      forall fd, p
        ensures multiset(o.out)[Delivery(fd, p)] == B.DueOver(b, es, fd, p)
      {
        RunDelivers(c, s, b, ls, fd, p);
      }
    }
  }

  /** Subscriptions outlive connections: a run without subscribe and unsubscribe messages, whoever
      connects, leaves or comes back, keeps for every id and topic as many as there were. */
  lemma SubscriptionsSurvive(c: Config, s: Server, b: B.Broker, ls: seq<Label>, topic: Str, id: Str)
    requires Inv(c, s) && Refines(s, b) && ProperRun(ls) && FreshRun(c, s, ls) && UnmixedRun(c, s, ls)
    requires Run(c, s, ls).Running?
    requires forall i :: 0 <= i < |EventsOf(c, s, ls)| ==> !B.ChangesCounts(EventsOf(c, s, ls)[i])
    ensures Held(Run(c, s, ls).server.subs, topic, id) == Held(s.subs, topic, id)
  {
    var es, s' := EventsOf(c, s, ls), Run(c, s, ls).server;
    RunIsRefined(c, s, b, ls);
    B.CountsSurvive(b, es);
    assert B.Count(b, topic, id) == Held(s.subs, topic, id);
    assert B.Count(B.Run(b, es), topic, id) == Held(s'.subs, topic, id);
  }

  /** The empty broker stands for the freshly created server. */
  lemma StartRefines(c: Config, recvMsg: seq<Byte>)
    requires Descriptors(c) && |recvMsg| == CTOS_LEN
    ensures Inv(c, Start(c, recvMsg)) && Refines(Start(c, recvMsg), B.Broker(map[], map[]))
  {
    StartInv(c, recvMsg);
  }

  /** From the start on, in closed form: a connected client has been handed the datagrams of a topic
      once for each time its id has subscribed to it and not, saturating, unsubscribed from it. */
  lemma DeliveryOverRuns(c: Config, recvMsg: seq<Byte>, ls: seq<Label>, topic: Str, fd: int)
    requires c.edition.Repaired? && Descriptors(c) && |recvMsg| == CTOS_LEN
    requires ProperRun(ls) && FreshRun(c, Start(c, recvMsg), ls)
    ensures var o, es := Run(c, Start(c, recvMsg), ls), EventsOf(c, Start(c, recvMsg), ls);
            var b0 := B.Broker(map[], map[]);
            o.Running? ==>
              && Refines(o.server, B.Run(b0, es))
              && (forall f, p :: multiset(o.out)[Delivery(f, p)] == B.DueOver(b0, es, f, p))
              && B.Copies(B.Run(b0, es), topic, fd)
                 == (var k := IndexByFd(o.server.clients, fd);
                     if k < 0 || o.server.clients[k].state.New? then 0
                     else B.Tally(0, B.Changes(b0, es, topic, o.server.clients[k].id)))
  {
    var s0, b0 := Start(c, recvMsg), B.Broker(map[], map[]);
    StartRefines(c, recvMsg);
    RunRefines(c, s0, b0, ls);
    RunInv(c, s0, ls);
    var o, es := Run(c, s0, ls), EventsOf(c, s0, ls);
    if o.Running? {
      var k := IndexByFd(o.server.clients, fd);
      if 0 <= k {
        B.CountIsTally(b0, es, topic, o.server.clients[k].id);
      }
    }
  }
}
