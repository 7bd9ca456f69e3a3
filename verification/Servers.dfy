/** server.c and TCP_server.c on the heap: the lists, the poll table and the receive buffer are
    objects updated in place. Every method is proved to do what ServerModel says of the values. */
module Servers {
  import opened Base
  import opened Clients
  import opened Subscriptions
  import opened Pollers
  import opened Packets
  import opened Payloads
  import M = ServerModel

  datatype Status = Continue | Idle | Exit | Die | Fault

  function StatusOf(o: M.Outcome): Status {
    match o
    case Running(_, _) => Continue
    case Idle(_) => Idle
    case Exited => Exit
    case Died => Die
    case Fault => Fault
  }

  /** Positions without a match contribute nothing to a pass. */
  lemma {:induction false} PassFromMatch(edition: Edition, clients: seq<Client>, subs: seq<Subscription>, pos: nat,
                                         topic: Str, packet: seq<Byte>)
    requires pos <= |subs|
    ensures var j := NextMatch(subs, pos, topic);
            M.Pass(edition, clients, subs[pos..], topic, packet) == M.Pass(edition, clients, subs[j..], topic, packet)
    decreases |subs| - pos
  {
    if pos < |subs| && subs[pos].topic != topic {
      assert subs[pos..][1..] == subs[pos + 1..];
      PassFromMatch(edition, clients, subs, pos + 1, topic, packet);
    }
  }

  /** out, then what the rest of the pass sends; and where the pass leaves the cursor. */
  function Ahead(edition: Edition, clients: seq<Client>, subs: seq<Subscription>, pos: nat,
                 topic: Str, packet: seq<Byte>, out: seq<M.Delivery>): (M.Sending, nat)
    requires pos <= |subs|
  {
    var rest := M.Pass(edition, clients, subs[pos..], topic, packet);
    (if rest.Sent? then M.Sent(out + rest.out) else M.Crash, M.CursorAfterPass(subs, pos, topic))
  }

  /** One step of the pass: the match at j is sent to its subscriber, or skipped, or faults. */
  lemma AheadStep(edition: Edition, clients: seq<Client>, subs: seq<Subscription>, pos: nat,
                  topic: Str, packet: seq<Byte>, out: seq<M.Delivery>)
    requires pos <= |subs|
    ensures var j := NextMatch(subs, pos, topic);
            var whole := Ahead(edition, clients, subs, pos, topic, packet, out);
            if j == |subs| then whole == (M.Sent(out), pos)
            else
              var k := IndexById(clients, subs[j].id);
              if 0 <= k then
                whole == Ahead(edition, clients, subs, j + 1, topic, packet, out + [M.Delivery(clients[k].fd, packet)])
              else if edition.AsWritten? then whole.0 == M.Crash
              else whole == Ahead(edition, clients, subs, j + 1, topic, packet, out)
  {
    var j := NextMatch(subs, pos, topic);
    PassFromMatch(edition, clients, subs, pos, topic, packet);
    if j < |subs| {
      assert subs[j..][1..] == subs[j + 1..];
      var k := IndexById(clients, subs[j].id);
      var rest := M.Pass(edition, clients, subs[j + 1..], topic, packet);
      if 0 <= k && rest.Sent? {
        var next := [M.Delivery(clients[k].fd, packet)];
        assert out + (next + rest.out) == out + next + rest.out;
      }
    } else {
      assert out + [] == out;
    }
  }

  class TcpServer {
    const c: M.Config
    const clients: ClientList
    const subs: SubscriptionList
    const poller: Poller
    const recvMsg: array<Byte>
    var sent: seq<M.Delivery>  // what was handed to send_all, in order

    ghost predicate Valid()
      reads this, clients, clients.Created, subs, subs.Created, poller
    {
      && clients.View().Some? && clients.edition == c.edition
      && subs.View().Some? && subs.edition == c.edition
      && poller.Valid() && poller.edition == c.edition
      && recvMsg.Length == CTOS_LEN
    }

    ghost function State(): (s: M.Server)
      requires Valid()
      reads this, clients, clients.Created, subs, subs.Created, poller, poller.pollfds, recvMsg
      ensures M.Shape(c, s)
    {
      M.Server(clients.Contents, subs.Contents, subs.pos, poller.State(), recvMsg[..])
    }

    /** The state the objects stand for, if they are well formed. */
    ghost function View(): (v: Option<M.Server>)
      reads this, clients, clients.Created, subs, subs.Created, poller, poller.pollfds, recvMsg
      ensures v.Some? ==> M.Shape(c, v.value)
    {
      if Valid() then Some(State()) else None
    }

    /** The status is that of the model's outcome; while the program runs, the objects stand for the
        model's state, and what was handed out before is followed by the model's output. */
    ghost predicate Follows(o: M.Outcome, status: Status, was: seq<M.Delivery>)
      reads this, clients, clients.Created, subs, subs.Created, poller, poller.pollfds, recvMsg
    {
      && status == StatusOf(o)
      && (o.Running? ==> View() == Some(o.server) && sent == was + o.out)
      && (o.Idle? ==> View() == Some(o.server) && sent == was)
    }

    /** TCP_server_create, and the poll table run_server starts from. */
    constructor (c: M.Config)
      ensures this.c == c && fresh(clients) && fresh(subs) && fresh(poller) && fresh(poller.pollfds)
      ensures fresh(recvMsg) && recvMsg.Length == CTOS_LEN && clients.Created == {} && subs.Created == {}
      ensures View() == Some(M.Start(c, recvMsg[..])) && sent == []
    {
      this.c := c;
      clients := new ClientList(c.edition);
      subs := new SubscriptionList(c.edition);
      poller := new Poller(c.edition);
      recvMsg := new Byte[CTOS_LEN];
      sent := [];
      new;
      var full := WatchOwn();
    }

    /** The three calls at the start of run_server. */
    method WatchOwn() returns (full: bool)
      requires poller.Valid() && poller.edition == c.edition
      requires poller.State() == Table(seq(MAX_CONNECTIONS, _ => Slot(0, false, false)), 0, 0)
      modifies poller`num, poller.pollfds
      ensures poller.Valid() && poller.State() == M.StartTable(c)
    {
      full := poller.AddFd(M.STDIN);
      full := poller.AddFd(c.udpFd);
      full := poller.AddFd(c.tcpFd);
    }

    /** TCP_server_send. */
    method Send(fd: int, header: array<Byte>)
      requires header.Length == HEADER_LEN && FromLe16(header[..2]) <= HEADER_LEN
      modifies this`sent
      ensures sent == old(sent) + [M.Delivery(fd, Wire(header[..]))]
    {
      var packet := FillPacket(header);
      sent := sent + [M.Delivery(fd, packet[..])];
    }

    /** Hands the packet to the client connected under id, if there is one. */
    method SendToSubscriber(id: Str, header: array<Byte>) returns (found: bool)
      requires clients.Valid() && header.Length == HEADER_LEN && FromLe16(header[..2]) <= HEADER_LEN
      modifies this`sent
      ensures var k := IndexById(clients.Contents, id);
              && found == (0 <= k)
              && sent == old(sent) + if k < 0 then [] else [M.Delivery(clients.Contents[k].fd, Wire(header[..]))]
    {
      var subscriber := clients.FindById(id);
      if subscriber == null {
        return false;
      }
      Send(subscriber.data.fd, header);
      return true;
    }

    /** The next match, if any, is sent to its subscriber, skipped, or faults. */
    method SendNext(topic: Str, header: array<Byte>)
      returns (more: bool, found: bool, fault: bool, ghost added: seq<M.Delivery>)
      requires clients.View().Some? && subs.View().Some?
      requires header.Length == HEADER_LEN && FromLe16(header[..2]) <= HEADER_LEN
      modifies this`sent, subs`current, subs`pos
      ensures subs.View() == Some((subs.Contents, subs.pos))
      ensures var j := NextMatch(subs.Contents, old(subs.pos), topic);
              && more == (j < |subs.Contents|)
              && subs.pos == (if more then j + 1 else old(subs.pos))
              && found == (more && 0 <= IndexById(clients.Contents, subs.Contents[j].id))
              && fault == (more && !found && c.edition.AsWritten?)
              && added == (if !found then []
                           else
                             var k := IndexById(clients.Contents, subs.Contents[j].id);
                             [M.Delivery(clients.Contents[k].fd, Wire(header[..]))])
      ensures sent == old(sent) + added
    {
      var sub := subs.GetNext(topic);
      if sub == null {
        return false, false, false, [];
      }
      assert sub.data == subs.Contents[subs.pos - 1];
      found := SendToSubscriber(sub.data.id, header);
      more, added := true, sent[|old(sent)|..];
      // Repair: as written the missing client is a NULL that is dereferenced; skip it.
      fault := !found && c.edition.AsWritten?;
    }

    /** One iteration of the loop of TCP_server_send_to_subscribers. */
    method SendStep(topic: Str, header: array<Byte>, rc0: int, ghost out: seq<M.Delivery>)
      returns (more: bool, rc: int, fault: bool, ghost added: seq<M.Delivery>)
      requires clients.View().Some? && subs.View().Some?
      requires header.Length == HEADER_LEN && FromLe16(header[..2]) <= HEADER_LEN
      modifies this`sent, subs`current, subs`pos
      ensures subs.View() == Some((subs.Contents, subs.pos)) && old(subs.pos) <= subs.pos
      ensures sent == old(sent) + added && rc == (if added == [] then rc0 else PACKET_MAXLEN)
      ensures more ==> old(subs.pos) < subs.pos
      ensures var packet := Wire(header[..]);
              var goal := Ahead(c.edition, clients.Contents, subs.Contents, old(subs.pos), topic, packet, out);
              if fault then goal.0 == M.Crash
              else if more then
                goal == Ahead(c.edition, clients.Contents, subs.Contents, subs.pos, topic, packet, out + added)
              else goal == (M.Sent(out + added), subs.pos)
    {
      AheadStep(c.edition, clients.Contents, subs.Contents, subs.pos, topic, Wire(header[..]), out);
      var found;
      more, found, fault, added := SendNext(topic, header);
      rc := if found then PACKET_MAXLEN else rc0;
      assert added == [] ==> out + added == out;
    }

    /** The loop of TCP_server_send_to_subscribers, from wherever the cursor is. */
    method SendPass(topic: Str, header: array<Byte>, rc0: int) returns (rc: int, fault: bool)
      requires clients.View().Some? && subs.View().Some?
      requires header.Length == HEADER_LEN && FromLe16(header[..2]) <= HEADER_LEN
      modifies this`sent, subs`current, subs`pos
      ensures subs.View() == Some((subs.Contents, subs.pos))
      ensures var (goal, end) :=
                Ahead(c.edition, clients.Contents, subs.Contents, old(subs.pos), topic, Wire(header[..]), []);
              && fault == goal.Crash?
              && (!fault ==>
                    && sent == old(sent) + goal.out && subs.pos == end
                    && rc == if goal.out == [] then rc0 else PACKET_MAXLEN)
    {
      ghost var out: seq<M.Delivery> := [];
      ghost var goal := Ahead(c.edition, clients.Contents, subs.Contents, subs.pos, topic, Wire(header[..]), []);
      rc, fault := rc0, false;
      var more := true;
      while more && !fault
        invariant subs.View() == Some((subs.Contents, subs.pos))
        invariant sent == old(sent) + out && rc == if out == [] then rc0 else PACKET_MAXLEN
        invariant if fault then goal.0 == M.Crash
                  else if more then
                    goal == Ahead(c.edition, clients.Contents, subs.Contents, subs.pos, topic, Wire(header[..]), out)
                  else goal == (M.Sent(out), subs.pos)
        decreases more && !fault, |subs.Contents| - subs.pos
      {
        ghost var added;
        more, rc, fault, added := SendStep(topic, header, rc, out);
        out := out + added;
      }
    }

    /** Where a pass starts, and what rc holds until something is sent. */
    method StartPass(junkRc: int) returns (rc: int)
      requires subs.View().Some? && subs.edition == c.edition
      modifies subs`current, subs`pos
      ensures subs.View() == Some((subs.Contents, if c.edition.Repaired? then 0 else old(subs.pos)))
      ensures rc == if c.edition.Repaired? then 0 else junkRc
    {
      rc := junkRc;
      // Repair: start the pass at the head, with a value for rc.
      if c.edition.Repaired? {
        subs.Rewind();
        rc := 0;
      }
    }

    /** TCP_server_send_to_subscribers. */
    method SendToSubscribers(header: array<Byte>, junkRc: int) returns (status: Status)
      requires View().Some? && header.Length == HEADER_LEN && FromLe16(header[..2]) <= HEADER_LEN
      modifies this`sent, subs`current, subs`pos
      ensures var topic := CString(header[8..8 + UDP_MSG_LEN]);
              Follows(M.SendToSubscribers(c, old(View().value), topic, Wire(header[..]), junkRc), status, old(sent))
    {
      var topic := CString(header[8..8 + UDP_MSG_LEN]);
      var rc := StartPass(junkRc);
      var fault;
      rc, fault := SendPass(topic, header, rc);
      return if fault then Fault else if rc < 0 then Die else Continue;
    }

    /** TCP_server_accept_connection: a node for the new connection heads the list. */
    method AddConnection(e: M.Input)
      requires clients.Valid()
      modifies clients, clients.Created
      ensures fresh(clients.Created - old(clients.Created))
      ensures clients.Valid() && clients.Contents == [Client(New, e.accepted, [], e.ip, e.port)] + old(clients.Contents)
    {
      var client := new ClientNode(Client(New, e.accepted, [], e.ip, e.port));
      clients.AddClient(client);
    }

    /** The two calls run_server makes after accepting. */
    method Watch(fd: int) returns (fault: bool)
      requires poller.Valid() && poller.edition == c.edition
      modifies poller, poller.pollfds
      ensures poller.Valid() && fault == (old(poller.num) == MAX_CONNECTIONS)
      ensures !fault ==>
                var t := WithFd(c.edition, old(poller.State()), fd);
                poller.State() == t.(idx := t.idx + 1)
    {
      fault := poller.AddFd(fd);
      if !fault {
        poller.Advance();
      }
    }

    /** The connection joins the list and the table. */
    method Admit(e: M.Input) returns (status: Status)
      requires View().Some? && M.Proper(e) && 0 <= e.accepted
      requires c.edition.Repaired? ==> poller.num < MAX_CONNECTIONS
      modifies clients, clients.Created, poller, poller.pollfds
      ensures fresh(clients.Created - old(clients.Created))
      ensures Follows(M.AcceptConnection(c, old(View().value), e), status, old(sent))
    {
      AddConnection(e);
      var fault := Watch(e.accepted);
      if fault {
        return Fault;
      }
      assert recvMsg[..] == old(recvMsg[..]);
      return Continue;
    }

    /** A readable TCP listener. */
    method AcceptConnection(e: M.Input) returns (status: Status)
      requires View().Some? && M.Proper(e)
      modifies clients, clients.Created, poller, poller.pollfds
      ensures fresh(clients.Created - old(clients.Created))
      ensures Follows(M.AcceptConnection(c, old(View().value), e), status, old(sent))
    {
      if e.accepted < 0 {
        return Die;
      }
      // Repair: as written there is no such test; refuse the connection.
      if c.edition.Repaired? && poller.num == MAX_CONNECTIONS {
        return Continue;
      }
      status := Admit(e);
    }

    /** The client of the descriptor, if any, leaves the list. */
    method DropClient(fd: int) returns (fault: bool)
      requires clients.Valid() && clients.edition == c.edition
      modifies clients, clients.Created
      ensures clients.Created == old(clients.Created)
      ensures var was, k := old(clients.Contents), IndexByFd(old(clients.Contents), fd);
              && fault == (0 <= k && RemovalFaults(c.edition, |was|, k))
              && (!fault ==> clients.View() == Some(if k < 0 then was else DropAt(was, k)))
    {
      fault := clients.RemoveClientByFd(fd);
    }

    /** TCP_server_close_connection. */
    method CloseConnection(fd: int) returns (status: Status)
      requires View().Some?
      modifies clients, clients.Created, poller, poller.pollfds
      ensures clients.Created == old(clients.Created)
      ensures Follows(M.CloseConnection(c, old(View().value), fd), status, old(sent))
    {
      var fault := DropClient(fd);
      if fault {
        return Fault;
      }
      poller.RemoveFd(fd);
      return Continue;
    }

    /** The end of a connection: server_print_connection_status prints the id of the client it
        looks up, and the connection is closed. */
    method Disconnect(fd: int) returns (status: Status)
      requires View().Some?
      modifies clients, clients.Created, poller, poller.pollfds
      ensures clients.Created == old(clients.Created)
      ensures Follows(M.Disconnect(c, old(View().value), fd), status, old(sent))
    {
      var client := clients.FindByFd(fd);
      if client == null {
        return Fault;
      }
      status := CloseConnection(fd);
    }

    /** TCP_server_update_client and what run_server makes of its result. */
    method UpdateClient(fd: int) returns (status: Status)
      requires View().Some?
      modifies clients, clients.Created, poller, poller.pollfds
      ensures clients.Created == old(clients.Created)
      ensures Follows(M.UpdateClient(c, old(View().value), fd), status, old(sent))
    {
      if recvMsg[0] != MSG_NEW {
        return Continue;
      }
      var id := IdOf(recvMsg[1..]);
      assert recvMsg[1..] == recvMsg[..][1..];
      if id.None? {
        return Fault;
      }
      var existing := clients.FindById(id.value);
      if existing != null {
        status := CloseConnection(fd);
        return;
      }
      var fault := clients.UpdateClientByFd(fd, Connected, id.value);
      return if fault then Fault else Continue;
    }

    method AddSubscription(sub: Subscription)
      requires View().Some?
      modifies subs, subs.Created
      ensures fresh(subs.Created - old(subs.Created))
      ensures View() == Some(M.Added(old(View().value), sub))
    {
      var node := new SubNode(sub);
      subs.AddSubscription(node);
      assert recvMsg[..] == old(recvMsg[..]) && poller.State() == old(poller.State());
    }

    /** The client looked up and TCP_server_get_sub_args. */
    method Requested(fd: int, e: M.Input) returns (request: M.Request)
      requires View().Some?
      ensures request == M.Requested(View().value, fd, e)
    {
      var subscriber := clients.FindByFd(fd);
      if subscriber == null {
        return M.Nobody;
      }
      var args := Scan(recvMsg[1..]);
      assert recvMsg[1..] == recvMsg[..][1..];
      if args.Overrun? || args.topic.None? {
        return M.Undefined;
      }
      var sf := if args.sf.Some? then args.sf.value else e.junkSf;
      return M.Wanted(Subscription(args.topic.value, subscriber.data.id, sf));
    }

    /** TCP_server_subscribe. */
    method Subscribe(fd: int, e: M.Input) returns (status: Status)
      requires View().Some?
      modifies subs, subs.Created
      ensures fresh(subs.Created - old(subs.Created))
      ensures Follows(M.Subscribe(c, old(View().value), fd, e), status, old(sent))
    {
      var request := Requested(fd, e);
      match request
      case Nobody => return Continue;
      case Undefined => return Fault;
      case Wanted(sub) =>
        AddSubscription(sub);
        return Continue;
    }

    /** Takes the first subscription of id to topic out of the list, if there is one. */
    method DropSubscription(topic: Str, id: Str) returns (fault: bool)
      requires subs.Valid()
      modifies subs, subs.Created
      ensures subs.Valid() && subs.Created == old(subs.Created)
      ensures var j := IndexOfSub(old(subs.Contents), topic, id);
              && fault == (0 <= j && RemovalFaults(subs.edition, |old(subs.Contents)|, j))
              && (!fault ==>
                    && subs.Contents == (if j < 0 then old(subs.Contents) else DropAt(old(subs.Contents), j))
                    && subs.pos == (if j < 0 then old(subs.pos) else CursorAfterDrop(old(subs.pos), j)))
    {
      var sub := subs.Find(topic, id);
      assert sub != null ==> IndexOf(subs.Nodes, sub) == IndexOfSub(subs.Contents, topic, id);
      fault := subs.RemoveSubscription(sub);
    }

    /** What is left of an unsubscription once its client is found, under id. */
    method UnsubscribeId(ghost fd: int, id: Str) returns (status: Status)
      requires View().Some? && 0 <= IndexByFd(clients.Contents, fd)
      requires id == clients.Contents[IndexByFd(clients.Contents, fd)].id
      modifies subs, subs.Created
      ensures subs.Created == old(subs.Created)
      ensures Follows(M.Unsubscribe(c, old(View().value), fd), status, old(sent))
    {
      var topic := CString(recvMsg[1..]);
      assert recvMsg[1..] == recvMsg[..][1..];
      var fault := DropSubscription(topic, id);
      assert recvMsg[..] == old(recvMsg[..]) && poller.State() == old(poller.State());
      return if fault then Fault else Continue;
    }

    /** TCP_server_unsubscribe. */
    method Unsubscribe(fd: int) returns (status: Status)
      requires View().Some?
      modifies subs, subs.Created
      ensures subs.Created == old(subs.Created)
      ensures Follows(M.Unsubscribe(c, old(View().value), fd), status, old(sent))
    {
      var unsubscriber := clients.FindByFd(fd);
      if unsubscriber == null {
        return Continue;
      }
      status := UnsubscribeId(fd, unsubscriber.data.id);
    }

    /** TCP_server_is_new_connection. */
    method IsNewConnection(fd: int) returns (b: bool)
      requires View().Some?
      ensures var k := IndexByFd(clients.Contents, fd);
              b == (0 <= k && clients.Contents[k].state.New?)
    {
      var client := clients.FindByFd(fd);
      if client == null {
        return false;
      }
      return client.data.state == New;
    }

    /** The part of run_server that treats the message in recvMsg. */
    method HandleMessage(fd: int, e: M.Input) returns (status: Status)
      requires View().Some?
      modifies clients, clients.Created, poller, poller.pollfds, subs, subs.Created
      ensures clients.Created == old(clients.Created) && fresh(subs.Created - old(subs.Created))
      ensures Follows(M.HandleMessage(c, old(View().value), fd, e), status, old(sent))
    {
      var isNew := IsNewConnection(fd);
      if isNew {
        status := UpdateClient(fd);
      } else if recvMsg[0] == MSG_SUBSCRIBE {
        status := Subscribe(fd, e);
      } else if recvMsg[0] == MSG_UNSUBSCRIBE {
        status := Unsubscribe(fd);
      } else {
        status := Continue;
      }
    }

    /** The receiving half of TCP_server_recv_all: a zeroed packet takes what arrives. */
    method ReceivePacket(e: M.Input) returns (packet: array<Byte>)
      requires M.Proper(e)
      ensures fresh(packet) && packet[..] == M.Padded(e.received)
    {
      packet := ZeroBuffer(PACKET_MAXLEN);
      var bytes := Bytes(e.received);
      Memcpy(packet, 0, bytes, 0, bytes.Length);
    }

    /** The other half: as many bytes of the packet as its length field says go into recvMsg. */
    method StoreMessage(e: M.Input) returns (fault: bool)
      requires View().Some? && M.Proper(e)
      modifies recvMsg
      ensures var after := M.Stored(c, old(View().value), e);
              fault == after.None? && (!fault ==> View() == after)
    {
      var packet := ReceivePacket(e);
      fault := StorePacket(c.edition, recvMsg, packet);
    }

    /** A packet that arrived on fd. */
    method ReceiveMessage(fd: int, e: M.Input) returns (status: Status)
      requires View().Some? && M.Proper(e)
      modifies clients, clients.Created, poller, poller.pollfds, subs, subs.Created, recvMsg
      ensures clients.Created == old(clients.Created) && fresh(subs.Created - old(subs.Created))
      ensures Follows(M.ReceiveMessage(c, old(View().value), fd, e), status, old(sent))
    {
      var fault := StoreMessage(e);
      if fault {
        status := Fault;
      } else {
        status := HandleMessage(fd, e);
      }
    }

    /** A readable client connection. */
    method ServeClient(fd: int, e: M.Input) returns (status: Status)
      requires View().Some? && M.Proper(e)
      modifies clients, clients.Created, poller, poller.pollfds, subs, subs.Created, recvMsg
      ensures clients.Created == old(clients.Created) && fresh(subs.Created - old(subs.Created))
      ensures Follows(M.ServeClient(c, old(View().value), fd, e), status, old(sent))
    {
      if e.recvFails {
        status := Die;
      } else if e.received == [] {
        status := Disconnect(fd);
      } else {
        status := ReceiveMessage(fd, e);
      }
    }

    /** Every node ever made has been freed, and both lists are empty. */
    ghost predicate TornDown()
      reads clients, subs
    {
      && clients.Nodes == [] && clients.Created == clients.Freed
      && subs.Nodes == [] && subs.Created == subs.Freed
    }

    /** TCP_server_destroy: every node of both lists is freed, in list order. */
    method Destroy() returns (ghost freedClients: seq<ClientNode>, ghost freedSubs: seq<SubNode>)
      requires View().Some?
      modifies clients, clients.Created, subs, subs.Created
      ensures freedClients == old(clients.Nodes) && freedSubs == old(subs.Nodes)
      ensures clients.Created == old(clients.Created) && subs.Created == old(subs.Created)
      ensures View().Some? && TornDown()
    {
      freedClients := clients.Destroy();
      freedSubs := subs.Destroy();
    }
  }
}
