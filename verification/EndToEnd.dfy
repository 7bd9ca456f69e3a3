/** From what a peer does to what the lists record of it: the address of a connection, the messages of a
    client; and from a datagram to what a subscriber prints of it. */
module EndToEnd {
  import opened Base
  import opened Clients
  import opened Subscriptions
  import opened Pollers
  import opened Packets
  import opened Payloads
  import opened ServerModel
  import opened Invariant
  import opened Refinement
  import N = Numbers

  // ---- a client's messages

  /** The client whose turn it is has sent this message. */
  ghost predicate Sends(e: Input, kind: Byte, text: Str) {
    && Proper(e) && !e.recvFails
    && |text| < CTOS_MAXLEN && e.received == Encode(ClientMessage(kind, text))
  }

  /** The position in the list of the client whose turn it is. */
  function Turn(s: Server): int
    requires Fits(s.table)
  {
    IndexByFd(s.clients, NextFd(s.table).0)
  }

  lemma TurnIs(c: Config, s: Server, e: Input, kind: Byte, text: Str)
    requires Inv(c, s) && ClientTurn(c, s) && Sends(e, kind, text)
    ensures 0 <= Turn(s)
    ensures var s' := s.(table := NextFd(s.table).1, recvMsg := Shorn(ClientMessage(kind, text)));
            Shape(c, s') && Step(c, s, Iterate(e)) == HandleMessage(c, s', NextFd(s.table).0, e)
  {
    NextIsKnown(c, s);
    assert Padded(e.received) == e.received;
    ServerStoresClientMessage(s.recvMsg, ClientMessage(kind, text));
    ServerStoresClientMessage(Zeros(CTOS_LEN), ClientMessage(kind, text));
  }

  /** NEW, from a new client: an id of 10 bytes and more overruns its buffer; one that is empty or in use
      ends the connection; under any other, the client is connected, and nothing else changes. */
  lemma NewIsRecorded(c: Config, s: Server, e: Input, id: Str)
    requires Inv(c, s) && ClientTurn(c, s) && Sends(e, MSG_NEW, id) && 0 !in id
    requires 0 <= Turn(s) && s.clients[Turn(s)].state.New?
    ensures var o, k := Step(c, s, Iterate(e)), Turn(s);
            if 10 <= |id| then o == Fault
            else if id == [] || exists i :: 0 <= i < |s.clients| && s.clients[i].id == id then
              if c.edition.AsWritten? && 0 < k == |s.clients| - 1 then o == Fault
              else o.Running? && o.out == [] && o.server.clients == DropAt(s.clients, k) && o.server.subs == s.subs
            else
              && o.Running? && o.out == [] && o.server.subs == s.subs
              && o.server.clients == s.clients[k := s.clients[k].(state := Connected, id := id)]
  {
    TurnIs(c, s, e, MSG_NEW, id);
    IdRoundTrip(id);
    assert s.clients[Turn(s)].id == [];
  }

  /** SUBSCRIBE, from a connected client: a topic of up to 48 bytes is put in front of the list with the
      client's id and its flag, as 0 or 1; with one of 49 bytes the flag is what the variable held. */
  lemma SubscriptionIsRecorded(c: Config, s: Server, e: Input, topic: Str, sf: int)
    requires Inv(c, s) && ClientTurn(c, s) && IsTopic(topic) && |topic| <= 49
    requires Sends(e, MSG_SUBSCRIBE, SubscribeText(topic, sf))
    requires 0 <= Turn(s) && s.clients[Turn(s)].state.Connected?
    ensures var o := Step(c, s, Iterate(e));
            var flag := if |topic| == 49 then e.junkSf else if sf != 0 then 1 else 0;
            && o.Running? && o.out == [] && o.server.clients == s.clients
            && o.server.subs == [Subscription(topic, s.clients[Turn(s)].id, flag)] + s.subs
  {
    TurnIs(c, s, e, MSG_SUBSCRIBE, SubscribeText(topic, sf));
    SubscribeRoundTrip(topic, sf);
  }

  lemma UnsubscriptionIsHandled(c: Config, s: Server, fd: int, e: Input, topic: Str)
    requires Shape(c, s) && 0 !in topic && |topic| <= 50
    requires s.recvMsg == Shorn(ClientMessage(MSG_UNSUBSCRIBE, topic))
    requires 0 <= IndexByFd(s.clients, fd) && s.clients[IndexByFd(s.clients, fd)].state.Connected?
    ensures var o := HandleMessage(c, s, fd, e);
            var j := IndexOfSub(s.subs, topic, s.clients[IndexByFd(s.clients, fd)].id);
            if c.edition.AsWritten? && 0 < j == |s.subs| - 1 then o == Fault
            else
              && o.Running? && o.out == [] && o.server.clients == s.clients
              && o.server.subs == if j < 0 then s.subs else DropAt(s.subs, j)
  {
    TextRoundTrip(MSG_UNSUBSCRIBE, topic);
  }

  /** UNSUBSCRIBE, from a connected client: the first subscription of its id to the topic leaves the list;
      without one nothing changes. As written, the tail cannot leave. */
  lemma UnsubscriptionIsRecorded(c: Config, s: Server, e: Input, topic: Str)
    requires Inv(c, s) && ClientTurn(c, s) && 0 !in topic && |topic| <= 50
    requires Sends(e, MSG_UNSUBSCRIBE, topic)
    requires 0 <= Turn(s) && s.clients[Turn(s)].state.Connected?
    ensures var o, j := Step(c, s, Iterate(e)), IndexOfSub(s.subs, topic, s.clients[Turn(s)].id);
            if c.edition.AsWritten? && 0 < j == |s.subs| - 1 then o == Fault
            else
              && o.Running? && o.out == [] && o.server.clients == s.clients
              && o.server.subs == if j < 0 then s.subs else DropAt(s.subs, j)
  {
    TurnIs(c, s, e, MSG_UNSUBSCRIBE, topic);
    var s' := s.(table := NextFd(s.table).1, recvMsg := Shorn(ClientMessage(MSG_UNSUBSCRIBE, topic)));
    UnsubscriptionIsHandled(c, s', NextFd(s.table).0, e, topic);
  }

  // ---- addresses

  /** The address a client was accepted from. */
  datatype Address = Address(ip: seq<Byte>, port: seq<Byte>)

  /** The iteration accepts the descriptor: the listener's turn, while the table has room. */
  ghost predicate Accepts(c: Config, s: Server, l: Label, fd: int)
    requires Shape(c, s)
  {
    && l.Iterate? && NextFd(s.table).0 == c.tcpFd && s.table.num < MAX_CONNECTIONS
    && l.input.accepted == fd && 0 <= fd
  }

  /** The address that came with the last accept of the descriptor in a run, if there was one. */
  ghost function LastAccepted(c: Config, s: Server, ls: seq<Label>, fd: int): Option<Address>
    requires Shape(c, s) && ProperRun(ls)
    decreases |ls|
  {
    if ls == [] then None
    else
      var o := Step(c, s, ls[0]);
      var later := if o.Running? then LastAccepted(c, o.server, ls[1..], fd) else None;
      if later.Some? then later
      else if Accepts(c, s, ls[0], fd) then Some(Address(ls[0].input.ip, ls[0].input.port))
      else None
  }

  /** The address the list holds for a descriptor, if there is a client with it. */
  function AddressOf(clients: seq<Client>, fd: int): Option<Address> {
    var k := IndexByFd(clients, fd);
    if k < 0 then None else Some(Address(clients[k].ip, clients[k].port))
  }

  lemma AddressAt(c: Config, clients: seq<Client>, k: nat)
    requires DistinctFds(c, clients) && k < |clients|
    ensures AddressOf(clients, clients[k].fd) == Some(Address(clients[k].ip, clients[k].port))
  {
  }

  lemma AddressAfterDrop(c: Config, clients: seq<Client>, k: nat, fd: int)
    requires DistinctFds(c, clients) && k < |clients|
    ensures AddressOf(DropAt(clients, k), fd) in {None, AddressOf(clients, fd)}
  {
    var rest := DropAt(clients, k);
    var j := IndexByFd(rest, fd);
    if 0 <= j {
      assert rest[j] == clients[if j < k then j else j + 1];
      AddressAt(c, clients, if j < k then j else j + 1);
    }
  }

  ghost predicate SameConnections(a: seq<Client>, b: seq<Client>) {
    && |a| == |b|
    && forall i :: 0 <= i < |a| ==> a[i].fd == b[i].fd && a[i].ip == b[i].ip && a[i].port == b[i].port
  }

  lemma SameAddresses(a: seq<Client>, b: seq<Client>, fd: int)
    requires SameConnections(a, b)
    ensures AddressOf(a, fd) == AddressOf(b, fd)
  {
  }

  lemma ClientsAfterMessage(c: Config, s: Server, turn: int, e: Input)
    requires Shape(c, s) && 0 <= IndexByFd(s.clients, turn)
    ensures var o := HandleMessage(c, s, turn, e);
            o.Running? ==>
              || SameConnections(s.clients, o.server.clients)
              || o.server.clients == DropAt(s.clients, IndexByFd(s.clients, turn))
  {
  }

  lemma AddressAfterMessage(c: Config, s: Server, turn: int, e: Input, fd: int)
    requires Inv(c, s) && 0 <= IndexByFd(s.clients, turn)
    ensures var o := HandleMessage(c, s, turn, e);
            o.Running? ==> AddressOf(o.server.clients, fd) in {None, AddressOf(s.clients, fd)}
  {
    ClientsAfterMessage(c, s, turn, e);
    AddressAfterDrop(c, s.clients, IndexByFd(s.clients, turn), fd);
    var o := HandleMessage(c, s, turn, e);
    if o.Running? && SameConnections(s.clients, o.server.clients) {
      SameAddresses(s.clients, o.server.clients, fd);
    }
  }

  /** What a connection's turn does to the list: nothing, or its own client leaves, or takes a name. */
  lemma AddressAfterClient(c: Config, s: Server, turn: int, e: Input, fd: int)
    requires Inv(c, s) && Proper(e) && 0 <= IndexByFd(s.clients, turn)
    ensures var o := ServeClient(c, s, turn, e);
            o.Running? ==> AddressOf(o.server.clients, fd) in {None, AddressOf(s.clients, fd)}
  {
    AddressAfterDrop(c, s.clients, IndexByFd(s.clients, turn), fd);
    var stored := Stored(c, s, e);
    if e.received != [] && stored.Some? {
      AddressAfterMessage(c, stored.value, turn, e, fd);
    }
  }

  lemma OwnTurnAddress(c: Config, s: Server, e: Input, fd: int)
    requires Inv(c, s) && Proper(e) && FreshAccept(c, s, Iterate(e)) && !ClientTurn(c, s)
    ensures var o := Step(c, s, Iterate(e));
            o.Running? ==>
              AddressOf(o.server.clients, fd)
              == if Accepts(c, s, Iterate(e), fd) then Some(Address(e.ip, e.port)) else AddressOf(s.clients, fd)
  {
    var o := Step(c, s, Iterate(e));
    if o.Running? {
      ClientsAfterOwnTurn(c, s, e);
      assert o.server.clients == s.clients || o.server.clients[1..] == s.clients;
    }
  }

  lemma ClientsAfterOwnTurn(c: Config, s: Server, e: Input)
    requires Descriptors(c) && Shape(c, s) && Proper(e) && !ClientTurn(c, s)
    ensures var o := Step(c, s, Iterate(e));
            o.Running? ==>
              o.server.clients
              == (if Accepts(c, s, Iterate(e), e.accepted) then [Client(New, e.accepted, [], e.ip, e.port)] else [])
                 + s.clients
  {
    var (turn, t) := NextFd(s.table);
    assert [] + s.clients == s.clients;
    if turn == c.tcpFd {
      ClientsAfterAccept(c, s.(table := t), e);
      assert Serve(c, s, e) == AcceptConnection(c, s.(table := t), e);
    }
  }

  lemma ClientsAfterAccept(c: Config, s: Server, e: Input)
    requires Shape(c, s)
    ensures var o := AcceptConnection(c, s, e);
            o.Running? ==>
              0 <= e.accepted &&
              o.server.clients
              == if s.table.num < MAX_CONNECTIONS then [Client(New, e.accepted, [], e.ip, e.port)] + s.clients
                 else s.clients
  {
  }

  /** A step leaves the address of a descriptor alone, or takes it away, or accepts the descriptor and
      records the address that came with it. */
  lemma StepAddress(c: Config, s: Server, l: Label, fd: int)
    requires Inv(c, s) && (l.Iterate? ==> Proper(l.input)) && FreshAccept(c, s, l)
    ensures var o := Step(c, s, l);
            o.Running? ==>
              if Accepts(c, s, l, fd) then AddressOf(o.server.clients, fd) == Some(Address(l.input.ip, l.input.port))
              else AddressOf(o.server.clients, fd) in {None, AddressOf(s.clients, fd)}
  {
    if l.Iterate? {
      if ClientTurn(c, s) {
        NextIsKnown(c, s);
        AddressAfterClient(c, s.(table := NextFd(s.table).1), NextFd(s.table).0, l.input, fd);
      } else {
        OwnTurnAddress(c, s, l.input, fd);
      }
    }
  }

  /** Over every run: a client in the list carries the address of the last accept of its descriptor, or,
      if the run has accepted it not at all, the one it carried before. Its messages, and whoever else
      comes and goes, never change it. */
  lemma {:induction false} RunAddresses(c: Config, s: Server, ls: seq<Label>, fd: int)
    requires Inv(c, s) && ProperRun(ls) && FreshRun(c, s, ls) && Run(c, s, ls).Running?
    ensures var after, last := AddressOf(Run(c, s, ls).server.clients, fd), LastAccepted(c, s, ls, fd);
            after.Some? ==> after == if last.Some? then last else AddressOf(s.clients, fd)
    decreases |ls|
  {
    if ls != [] {
      StepInv(c, s, ls[0]);
      StepAddress(c, s, ls[0], fd);
      RunAddresses(c, Step(c, s, ls[0]).server, ls[1..], fd);
    }
  }

  /** In every reachable state, every client carries the address of the last accept of its descriptor. */
  lemma AddressesFromStart(c: Config, recvMsg: seq<Byte>, ls: seq<Label>, k: nat)
    requires Descriptors(c) && |recvMsg| == CTOS_LEN
    requires ProperRun(ls) && FreshRun(c, Start(c, recvMsg), ls)
    ensures var o := Run(c, Start(c, recvMsg), ls);
            o.Running? && k < |o.server.clients| ==>
              var client := o.server.clients[k];
              LastAccepted(c, Start(c, recvMsg), ls, client.fd) == Some(Address(client.ip, client.port))
  {
    var o := Run(c, Start(c, recvMsg), ls);
    StartInv(c, recvMsg);
    RunInv(c, Start(c, recvMsg), ls);
    if o.Running? && k < |o.server.clients| {
      RunAddresses(c, Start(c, recvMsg), ls, o.server.clients[k].fd);
      AddressAt(c, o.server.clients, k);
    }
  }

  // ---- datagrams

  /** A datagram of a topic goes out to each client as many times as it has subscriptions to the topic, to
      nobody else, and nothing else goes out. */
  lemma DatagramGoesOut(c: Config, s: Server, e: Input, topic: Str, fd: int, p: seq<Byte>)
    requires c.edition.Repaired? && Inv(c, s) && Proper(e) && NextFd(s.table).0 == c.udpFd
    requires TextOf(topic, e.datagram)
    ensures var o, k := Step(c, s, Iterate(e)), IndexByFd(s.clients, fd);
            && o.Running? && o.server.clients == s.clients && o.server.subs == s.subs
            && multiset(o.out)[Delivery(fd, p)]
               == if p == PacketFor(e) && 0 <= k then Held(s.subs, topic, s.clients[k].id) else 0
  {
    CStringUnique(e.datagram, topic);
    assert s.subs[0..] == s.subs;
    RepairedPassIsSent(s.clients, s.subs, topic, PacketFor(e));
    PassDelivers(c, s.clients, s.subs, topic, PacketFor(e), fd, p);
  }

  lemma ContentArrives(e: Input)
    requires Proper(e)
    ensures var m := Decode(PacketFor(e), STOC_LEN);
            && m[56] == e.datagram[50]
            && m[57..] == e.datagram[51..UDP_MSG_LEN - 2] + [0, 0]
  {
    PacketRoundTrip(ServerMessage(e.srcIp, e.srcPort, e.datagram));
    var m := Decode(PacketFor(e), STOC_LEN);
    var d := e.datagram;
    assert m == e.srcIp + e.srcPort + d[..UDP_MSG_LEN - 2] + [0, 0];
    assert m[57..] == d[51..UDP_MSG_LEN - 2] + [0, 0];
  }

  lemma TextIsCut(content: seq<Byte>, text: Str)
    requires |content| == N.CONTENT_MAXLEN && TextOf(text, content)
    ensures TextOf(if |text| <= 1498 then text else text[..1498], content[..1498] + [0, 0])
  {
  }

  /** What a subscriber prints of a datagram: for a number, just what its content means; for a text, that
      text, cut to its first 1498 bytes. */
  lemma DatagramIsPrinted(e: Input, text: Str, power: real)
    requires Proper(e) && 0.0 < power && TextOf(text, e.datagram[51..])
    ensures var kind, printed := e.datagram[50], N.MessageText(Decode(PacketFor(e), STOC_LEN), power);
            printed == if kind <= 2 then N.ContentText(kind, e.datagram[51..], power)
                       else if |text| <= 1498 then text else text[..1498]
  {
    var content, m := e.datagram[51..], Decode(PacketFor(e), STOC_LEN);
    var arrived := m[57..];
    ContentArrives(e);
    assert arrived == content[..1498] + [0, 0];
    if 3 <= e.datagram[50] {
      TextIsCut(content, text);
      N.TextIsPrinted(m[56], arrived, if |text| <= 1498 then text else text[..1498], power);
    } else {
      assert arrived[0] == content[0] && arrived[1..5] == content[1..5] && arrived[5] == content[5];
      assert arrived[..2] == content[..2];
    }
  }
}
