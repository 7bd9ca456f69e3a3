/** What holds in every state the event loop reaches, in either edition. */
module Invariant {
  import opened Base
  import opened Clients
  import opened Subscriptions
  import opened Pollers
  import opened Packets
  import opened ServerModel

  ghost predicate Descriptors(c: Config) {
    0 < c.udpFd && 0 < c.tcpFd && c.udpFd != c.tcpFd
  }

  /** A descriptor the kernel can hand out for a connection of its own. */
  ghost predicate Foreign(c: Config, fd: int) {
    0 <= fd && fd != STDIN && fd != c.udpFd && fd != c.tcpFd
  }

  /** No two connections share a descriptor. */
  ghost predicate DistinctFds(c: Config, clients: seq<Client>) {
    && (forall i :: 0 <= i < |clients| ==> Foreign(c, clients[i].fd))
    && (forall i, j :: 0 <= i < j < |clients| ==> clients[i].fd != clients[j].fd)
  }

  /** A client is new exactly while its id is empty, and no two connected ones share an id. */
  ghost predicate Identities(clients: seq<Client>) {
    && (forall i :: 0 <= i < |clients| ==> (clients[i].state.New? <==> clients[i].id == []))
    && (forall i, j :: 0 <= i < j < |clients| && clients[j].state.Connected? ==> clients[i].id != clients[j].id)
  }

  ghost predicate Named(subs: seq<Subscription>) {
    forall i :: 0 <= i < |subs| ==> subs[i].id != []
  }

  /** The table holds stdin, the UDP and the TCP socket, and then the clients of the list, last first. */
  ghost predicate TableAgrees(c: Config, clients: seq<Client>, t: Table) {
    && Fits(t) && t.num == 3 + |clients|
    && t.slots[0].fd == STDIN && t.slots[1].fd == c.udpFd && t.slots[2].fd == c.tcpFd
    && (forall i {:trigger t.slots[i]} :: 3 <= i < t.num ==> t.slots[i].fd == clients[t.num - 1 - i].fd)
  }

  /** Every slot in use asks for POLLIN. */
  ghost predicate Asks(t: Table) {
    Fits(t) && forall i {:trigger t.slots[i]} :: 0 <= i < t.num ==> t.slots[i].events
  }

  ghost predicate Inv(c: Config, s: Server) {
    && Shape(c, s)
    && Descriptors(c)
    && DistinctFds(c, s.clients)
    && Identities(s.clients)
    && Named(s.subs)
    && TableAgrees(c, s.clients, s.table)
    && Asks(s.table)
  }

  /** accept never hands out a descriptor that is open. */
  ghost predicate FreshAccept(c: Config, s: Server, l: Label)
    requires s.table.num <= |s.table.slots|
  {
    l.Iterate? && NextFd(s.table).0 == c.tcpFd && 0 <= l.input.accepted ==>
      Foreign(c, l.input.accepted) && IndexByFd(s.clients, l.input.accepted) < 0
  }

  ghost predicate FreshRun(c: Config, s: Server, ls: seq<Label>)
    requires Shape(c, s) && ProperRun(ls)
    decreases |ls|
  {
    ls != [] ==>
      && FreshAccept(c, s, ls[0])
      && (Step(c, s, ls[0]).Running? ==> FreshRun(c, Step(c, s, ls[0]).server, ls[1..]))
  }

  function ClientFds(clients: seq<Client>): (fds: seq<int>)
    ensures |fds| == |clients| && forall i :: 0 <= i < |fds| ==> fds[i] == clients[i].fd
  {
    seq(|clients|, i requires 0 <= i < |clients| => clients[i].fd)
  }

  function TableFds(t: Table): (fds: seq<int>)
    requires t.num <= |t.slots|
    ensures |fds| == t.num && forall i :: 0 <= i < |fds| ==> fds[i] == t.slots[i].fd
  {
    seq(t.num, i requires 0 <= i < t.num => t.slots[i].fd)
  }

  lemma StartInv(c: Config, recvMsg: seq<Byte>)
    requires Descriptors(c) && |recvMsg| == CTOS_LEN
    ensures Inv(c, Start(c, recvMsg))
  {
  }

  /** The client at position k of the list sits in slot num - 1 - k, and nowhere else. */
  lemma {:induction false} SlotOfClient(c: Config, clients: seq<Client>, t: Table, k: nat)
    requires Descriptors(c) && DistinctFds(c, clients) && TableAgrees(c, clients, t) && k < |clients|
    ensures FdIndex(t, clients[k].fd) == t.num - 1 - k
    ensures IndexByFd(clients, clients[k].fd) == k
  {
    var j := t.num - 1 - k;
    assert t.slots[j].fd == clients[k].fd;
    var f := FdIndex(t, clients[k].fd);
    FdIndexIsFirst(t, clients[k].fd, 0);
    assert 0 <= f <= j;
    assert 3 <= f by {
      assert Foreign(c, clients[k].fd);
    }
    assert t.slots[f].fd == clients[t.num - 1 - f].fd;
  }

  lemma {:induction false} TableAfterClose(c: Config, clients: seq<Client>, t: Table, k: nat)
    requires Descriptors(c) && DistinctFds(c, clients) && TableAgrees(c, clients, t) && k < |clients|
    ensures TableAgrees(c, DropAt(clients, k), WithoutFd(t, clients[k].fd))
  {
    SlotOfClient(c, clients, t, k);
    var t', rest := WithoutFd(t, clients[k].fd), DropAt(clients, k);
    forall i | 3 <= i < t'.num
      ensures t'.slots[i].fd == rest[t'.num - 1 - i].fd
    {
      var j := if i < t.num - 1 - k then i else i + 1;
      assert t'.slots[i] == t.slots[j] && t.slots[j].fd == clients[t.num - 1 - j].fd;
    }
  }

  lemma ClientsAfterDrop(c: Config, clients: seq<Client>, k: nat)
    requires DistinctFds(c, clients) && Identities(clients) && k < |clients|
    ensures DistinctFds(c, DropAt(clients, k)) && Identities(DropAt(clients, k))
  {
    var rest := DropAt(clients, k);
    forall i | 0 <= i < |rest|
      ensures rest[i] == clients[if i < k then i else i + 1]
    {
    }
  }

  lemma CloseInv(c: Config, s: Server, fd: int)
    requires Inv(c, s) && 0 <= IndexByFd(s.clients, fd)
    ensures CloseConnection(c, s, fd).Running? ==> Inv(c, CloseConnection(c, s, fd).server)
  {
    var k := IndexByFd(s.clients, fd);
    TableAfterClose(c, s.clients, s.table, k);
    ClientsAfterDrop(c, s.clients, k);
  }

  lemma AcceptInv(c: Config, s: Server, e: Input)
    requires Inv(c, s)
    requires 0 <= e.accepted ==> Foreign(c, e.accepted) && IndexByFd(s.clients, e.accepted) < 0
    ensures AcceptConnection(c, s, e).Running? ==> Inv(c, AcceptConnection(c, s, e).server)
  {
    var o := AcceptConnection(c, s, e);
    if o.Running? && s.table.num < MAX_CONNECTIONS {
      var t := o.server.table;
      forall i | 3 <= i < t.num
        ensures t.slots[i].fd == o.server.clients[t.num - 1 - i].fd
      {
        if i < t.num - 1 {
          assert s.table.slots[i].fd == s.clients[s.table.num - 1 - i].fd;
        }
      }
    }
  }

  /** Connecting under an id keeps the identities apart because the id was looked up among all
      clients, the new ones with their empty ids included. */
  lemma UpdateInv(c: Config, s: Server, fd: int)
    requires Inv(c, s) && 0 <= IndexByFd(s.clients, fd) && s.clients[IndexByFd(s.clients, fd)].state.New?
    ensures UpdateClient(c, s, fd).Running? ==> Inv(c, UpdateClient(c, s, fd).server)
  {
    var id, k := CString(s.recvMsg[1..]), IndexByFd(s.clients, fd);
    if s.recvMsg[0] == MSG_NEW {
      if 0 <= IndexById(s.clients, id) {
        CloseInv(c, s, fd);
      } else {
        assert s.clients[k].id == [];
        assert id != [];
      }
    }
  }

  lemma HandleInv(c: Config, s: Server, fd: int, e: Input)
    requires Inv(c, s) && 0 <= IndexByFd(s.clients, fd)
    ensures HandleMessage(c, s, fd, e).Running? ==> Inv(c, HandleMessage(c, s, fd, e).server)
  {
    var k := IndexByFd(s.clients, fd);
    if s.clients[k].state.New? {
      UpdateInv(c, s, fd);
    } else if s.recvMsg[0] == MSG_UNSUBSCRIBE {
      var j := IndexOfSub(s.subs, CString(s.recvMsg[1..]), s.clients[k].id);
      if 0 <= j {
        assert Named(DropAt(s.subs, j));
      }
    }
  }

  /** The iterator only ever returns the descriptors of the table. */
  lemma NextIsKnown(c: Config, s: Server)
    requires Inv(c, s)
    ensures var fd := NextFd(s.table).0;
            fd == -1 || fd == STDIN || fd == c.udpFd || fd == c.tcpFd || 0 <= IndexByFd(s.clients, fd)
    ensures Inv(c, s.(table := NextFd(s.table).1))
  {
    var j := NextReady(s.table, s.table.idx);
    if 3 <= j < s.table.num {
      assert s.table.slots[j].fd == s.clients[s.table.num - 1 - j].fd;
    }
    assert NextFd(s.table).1.slots == s.table.slots;
  }

  lemma ReceiveInv(c: Config, s: Server, fd: int, e: Input)
    requires Inv(c, s) && Proper(e) && 0 <= IndexByFd(s.clients, fd)
    ensures ReceiveMessage(c, s, fd, e).Running? ==> Inv(c, ReceiveMessage(c, s, fd, e).server)
  {
    var stored := Stored(c, s, e);
    if stored.Some? {
      HandleInv(c, stored.value, fd, e);
    }
  }

  lemma ServeClientInv(c: Config, s: Server, fd: int, e: Input)
    requires Inv(c, s) && Proper(e) && 0 <= IndexByFd(s.clients, fd)
    ensures ServeClient(c, s, fd, e).Running? ==> Inv(c, ServeClient(c, s, fd, e).server)
  {
    if e.received == [] {
      CloseInv(c, s, fd);
    } else {
      ReceiveInv(c, s, fd, e);
    }
  }

  lemma ServeInv(c: Config, s: Server, e: Input)
    requires Inv(c, s) && Proper(e) && FreshAccept(c, s, Iterate(e))
    ensures Serve(c, s, e).Running? || Serve(c, s, e).Idle? ==> Inv(c, Serve(c, s, e).server)
  {
    NextIsKnown(c, s);
    var (fd, t) := NextFd(s.table);
    var s' := s.(table := t);
    if fd == -1 || fd == STDIN || fd == c.udpFd {
    } else if fd == c.tcpFd {
      AcceptInv(c, s', e);
    } else {
      ServeClientInv(c, s', fd, e);
    }
  }

  lemma StepInv(c: Config, s: Server, l: Label)
    requires Inv(c, s) && (l.Iterate? ==> Proper(l.input)) && FreshAccept(c, s, l)
    ensures Step(c, s, l).Running? ==> Inv(c, Step(c, s, l).server)
  {
    match l
    case Poll(ready) =>
      assert forall i :: 0 <= i < s.table.num ==> StartRound(s, ready).table.slots[i].fd == s.table.slots[i].fd;
    case Iterate(e) =>
      ServeInv(c, s, e);
  }

  lemma {:induction false} RunInv(c: Config, s: Server, ls: seq<Label>)
    requires Inv(c, s) && ProperRun(ls) && FreshRun(c, s, ls)
    ensures Run(c, s, ls).Running? ==> Inv(c, Run(c, s, ls).server)
    decreases |ls|
  {
    if ls != [] {
      StepInv(c, s, ls[0]);
      if Step(c, s, ls[0]).Running? {
        RunInv(c, Step(c, s, ls[0]).server, ls[1..]);
      }
    }
  }

  lemma {:induction false} FreshAppend(c: Config, s: Server, a: seq<Label>, b: seq<Label>)
    requires Shape(c, s) && ProperRun(a) && ProperRun(b) && FreshRun(c, s, a)
    requires Run(c, s, a).Running? ==> FreshRun(c, Run(c, s, a).server, b)
    ensures ProperRun(a + b) && FreshRun(c, s, a + b)
    decreases |a|
  {
    if a == [] {
      assert a + b == b;
    } else {
      assert (a + b)[1..] == a[1..] + b;
      if Step(c, s, a[0]).Running? {
        FreshAppend(c, Step(c, s, a[0]).server, a[1..], b);
      }
    }
  }

  lemma AgreementAsSequences(c: Config, clients: seq<Client>, t: Table)
    requires Descriptors(c) && DistinctFds(c, clients) && TableAgrees(c, clients, t)
    ensures TableFds(t) == [STDIN, c.udpFd, c.tcpFd] + Reverse(ClientFds(clients))
    ensures forall i, j :: 0 <= i < j < t.num ==> TableFds(t)[i] != TableFds(t)[j]
  {
    var fds, all := TableFds(t), [STDIN, c.udpFd, c.tcpFd] + Reverse(ClientFds(clients));
    forall i | 0 <= i < |fds|
      ensures fds[i] == all[i]
    {
    }
  }

  /** In every reachable state the poll table is stdin, UDP, TCP and then the reverse of the client
      list, without repetition; a client is new exactly while its id is empty, and no two connected
      ones share an id. */
  lemma TableIsReverseOfClients(c: Config, recvMsg: seq<Byte>, ls: seq<Label>)
    requires Descriptors(c) && |recvMsg| == CTOS_LEN
    requires ProperRun(ls) && FreshRun(c, Start(c, recvMsg), ls)
    ensures var o := Run(c, Start(c, recvMsg), ls);
            o.Running? ==>
              var s := o.server;
              && TableFds(s.table) == [STDIN, c.udpFd, c.tcpFd] + Reverse(ClientFds(s.clients))
              && (forall i, j :: 0 <= i < j < s.table.num ==> TableFds(s.table)[i] != TableFds(s.table)[j])
              && Identities(s.clients)
  {
    StartInv(c, recvMsg);
    RunInv(c, Start(c, recvMsg), ls);
    var o := Run(c, Start(c, recvMsg), ls);
    if o.Running? {
      AgreementAsSequences(c, o.server.clients, o.server.table);
    }
  }

  // ---- buffers

  /** Every stored string fits, with its terminator, the buffer of the node that holds it. */
  ghost predicate StringsFit(clients: seq<Client>, subs: seq<Subscription>) {
    && (forall i :: 0 <= i < |clients| ==> |clients[i].id| < ID_MAXLEN)
    && (forall i :: 0 <= i < |subs| ==> |subs[i].topic| < TOPIC_LEN && |subs[i].id| < ID_MAXLEN)
  }

  lemma StringsAfterDrop(clients: seq<Client>, subs: seq<Subscription>)
    requires StringsFit(clients, subs)
    ensures forall k :: 0 <= k < |clients| ==> StringsFit(DropAt(clients, k), subs)
    ensures forall k :: 0 <= k < |subs| ==> StringsFit(clients, DropAt(subs, k))
  {
  }

  lemma HandleStrings(c: Config, s: Server, fd: int, e: Input)
    requires Shape(c, s) && StringsFit(s.clients, s.subs)
    ensures var o := HandleMessage(c, s, fd, e);
            o.Running? ==> StringsFit(o.server.clients, o.server.subs)
  {
    StringsAfterDrop(s.clients, s.subs);
  }

  lemma ReceiveStrings(c: Config, s: Server, fd: int, e: Input)
    requires Shape(c, s) && Proper(e) && StringsFit(s.clients, s.subs)
    ensures var o := ReceiveMessage(c, s, fd, e);
            o.Running? ==> StringsFit(o.server.clients, o.server.subs)
  {
    var stored := Stored(c, s, e);
    if stored.Some? {
      HandleStrings(c, stored.value, fd, e);
    }
  }

  lemma ClientStrings(c: Config, s: Server, fd: int, e: Input)
    requires Shape(c, s) && Proper(e) && StringsFit(s.clients, s.subs)
    ensures var o := ServeClient(c, s, fd, e);
            o.Running? ==> StringsFit(o.server.clients, o.server.subs)
  {
    if e.received == [] {
      StringsAfterDrop(s.clients, s.subs);
    } else {
      ReceiveStrings(c, s, fd, e);
    }
  }

  lemma ServeStrings(c: Config, s: Server, e: Input)
    requires Shape(c, s) && Proper(e) && StringsFit(s.clients, s.subs)
    ensures var o := Serve(c, s, e);
            o.Running? || o.Idle? ==> StringsFit(o.server.clients, o.server.subs)
  {
    var (fd, t) := NextFd(s.table);
    if fd != -1 && fd != STDIN && fd != c.udpFd && fd != c.tcpFd {
      ClientStrings(c, s.(table := t), fd, e);
    }
  }

  /** Whatever clients send, no run of either edition that stays within defined behaviour has stored a
      string that does not fit: the copies into the nodes never overrun. */
  lemma {:induction false} RunStrings(c: Config, s: Server, ls: seq<Label>)
    requires Shape(c, s) && ProperRun(ls) && StringsFit(s.clients, s.subs)
    ensures var o := Run(c, s, ls);
            o.Running? ==> StringsFit(o.server.clients, o.server.subs)
    decreases |ls|
  {
    if ls != [] {
      if ls[0].Iterate? {
        ServeStrings(c, s, ls[0].input);
      }
      if Step(c, s, ls[0]).Running? {
        RunStrings(c, Step(c, s, ls[0]).server, ls[1..]);
      }
    }
  }
}
