/** One round of the event loop, from a poll to the call of the iterator that finds nothing: which of
    the ready descriptors are served. */
module Rounds {
  import opened Base
  import opened Clients
  import opened Packets
  import opened Pollers
  import opened ServerModel
  import opened Invariant
  import P = PollRound

  /** The descriptor an iteration serves, if any. */
  function ServedNow(s: Server): seq<int>
    requires Fits(s.table)
  {
    var fd := NextFd(s.table).0;
    if fd == -1 then [] else [fd]
  }

  /** Whether an iteration has accepted or closed a connection. */
  function ChangesNow(s: Server, o: Outcome): nat {
    if o.Running? && o.server.table.num != s.table.num then 1 else 0
  }

  ghost predicate Iterations(ls: seq<Label>) {
    ProperRun(ls) && forall i :: 0 <= i < |ls| ==> ls[i].Iterate?
  }

  ghost function Served(c: Config, s: Server, ls: seq<Label>): seq<int>
    requires Shape(c, s) && ProperRun(ls)
    decreases |ls|
  {
    if ls == [] then []
    else
      var o := Step(c, s, ls[0]);
      ServedNow(s) + if o.Running? then Served(c, o.server, ls[1..]) else []
  }

  ghost function Changes(c: Config, s: Server, ls: seq<Label>): nat
    requires Shape(c, s) && ProperRun(ls)
    decreases |ls|
  {
    if ls == [] then 0
    else
      var o := Step(c, s, ls[0]);
      ChangesNow(s, o) + if o.Running? then Changes(c, o.server, ls[1..]) else 0
  }

  /** What an iteration does to the poll table: the iterator's call, and then at most one accept or close. */
  lemma TableAfterServe(c: Config, s: Server, e: Input)
    requires Inv(c, s) && Proper(e) && FreshAccept(c, s, Iterate(e)) && Step(c, s, Iterate(e)).Running?
    ensures var (fd, t) := NextFd(s.table);
            var t' := Step(c, s, Iterate(e)).server.table;
            if t'.num == t.num then t' == t
            else if t.num < t'.num then
              && fd == c.tcpFd && 0 <= e.accepted && t.num < MAX_CONNECTIONS
              && t' == WithFd(c.edition, t, e.accepted).(idx := t.idx + 1)
            else t' == WithoutFd(t, fd)
  {
    NextIsKnown(c, s);
    var (fd, t) := NextFd(s.table);
    if fd != -1 && fd != STDIN && fd != c.udpFd && fd != c.tcpFd {
      TableAfterClient(c, s.(table := t), fd, e);
    }
  }

  lemma TableAfterClient(c: Config, s: Server, fd: int, e: Input)
    requires Inv(c, s) && Proper(e) && 0 <= IndexByFd(s.clients, fd) && ServeClient(c, s, fd, e).Running?
    ensures var t' := ServeClient(c, s, fd, e).server.table;
            if t'.num == s.table.num then t' == s.table else t'.num < s.table.num && t' == WithoutFd(s.table, fd)
  {
    SlotOfClient(c, s.clients, s.table, IndexByFd(s.clients, fd));
  }

  lemma NextServes(c: Config, s: Server)
    requires Inv(c, s)
    ensures ServedNow(s) == if NextReady(s.table, s.table.idx) < s.table.num then [NextFd(s.table).0] else []
  {
    var j := NextReady(s.table, s.table.idx);
    if 3 <= j < s.table.num {
      assert s.table.slots[j].fd == s.clients[s.table.num - 1 - j].fd;
    }
  }

  lemma ChangeAccounted(edition: Edition, all: seq<int>, r: P.Round, t': Table, accepted: int, closed: int)
    requires P.Accounted(all, r) && (r.table.num < t'.num ==> P.CleanSlot(edition, r.table))
    requires if t'.num == r.table.num then t' == r.table
             else if r.table.num < t'.num then
               r.table.num < |r.table.slots| && t' == WithFd(edition, r.table, accepted).(idx := r.table.idx + 1)
             else t' == WithoutFd(r.table, closed)
    ensures P.Accounted(all, P.Round(t', r.returned, r.changes + if t'.num == r.table.num then 0 else 1))
  {
    if r.table.num < t'.num {
      P.StepAccounted(edition, all, r, P.Accept(accepted));
    } else if t'.num < r.table.num {
      P.StepAccounted(edition, all, r, P.Close(closed));
    }
  }

  /** An accept in this iteration finds a clean slot. */
  ghost predicate AcceptsClean(c: Config, s: Server, e: Input)
    requires Shape(c, s)
  {
    var (fd, t) := NextFd(s.table);
    fd == c.tcpFd && 0 <= e.accepted && t.num < MAX_CONNECTIONS ==> P.CleanSlot(c.edition, t)
  }

  ghost predicate CleanAccepts(c: Config, s: Server, ls: seq<Label>)
    requires Shape(c, s) && ProperRun(ls)
    decreases |ls|
  {
    ls != [] ==>
      && (ls[0].Iterate? ==> AcceptsClean(c, s, ls[0].input))
      && (Step(c, s, ls[0]).Running? ==> CleanAccepts(c, Step(c, s, ls[0]).server, ls[1..]))
  }

  lemma {:induction false} RepairedIsClean(c: Config, s: Server, ls: seq<Label>)
    requires c.edition.Repaired? && Shape(c, s) && ProperRun(ls)
    ensures CleanAccepts(c, s, ls)
    decreases |ls|
  {
    if ls != [] && Step(c, s, ls[0]).Running? {
      RepairedIsClean(c, Step(c, s, ls[0]).server, ls[1..]);
    }
  }

  /** An iteration keeps the account of its round. */
  lemma ServeAccounted(c: Config, s: Server, e: Input, all: seq<int>, served: seq<int>, changes: nat)
    requires Inv(c, s) && Proper(e) && FreshAccept(c, s, Iterate(e)) && Step(c, s, Iterate(e)).Running?
    requires AcceptsClean(c, s, e)
    requires P.Accounted(all, P.Round(s.table, served, changes))
    ensures var o := Step(c, s, Iterate(e));
            P.Accounted(all, P.Round(o.server.table, served + ServedNow(s), changes + ChangesNow(s, o)))
  {
    TableAfterServe(c, s, e);
    NextServes(c, s);
    assert served + [] == served;
    P.NextAccounted(c.edition, all, P.Round(s.table, served, changes));
    var (fd, t) := NextFd(s.table);
    ChangeAccounted(c.edition, all, P.Round(t, served + ServedNow(s), changes),
                    Step(c, s, Iterate(e)).server.table, e.accepted, fd);
  }

  /** An accept of a descriptor that was not ready keeps it exactly when the slot is clean. */
  lemma AcceptAccountedIff(c: Config, s: Server, e: Input, all: seq<int>, served: seq<int>, changes: nat)
    requires Inv(c, s) && Proper(e) && FreshAccept(c, s, Iterate(e)) && Step(c, s, Iterate(e)).Running?
    requires NextFd(s.table).0 == c.tcpFd && NextFd(s.table).1.num < MAX_CONNECTIONS && e.accepted !in all
    requires P.Accounted(all, P.Round(s.table, served, changes))
    ensures var o := Step(c, s, Iterate(e));
            P.Accounted(all, P.Round(o.server.table, served + ServedNow(s), changes + ChangesNow(s, o)))
            <==> AcceptsClean(c, s, e)
  {
    var (fd, t) := NextFd(s.table);
    TableAfterServe(c, s, e);
    NextServes(c, s);
    P.NextAccounted(c.edition, all, P.Round(s.table, served, changes));
    P.AcceptAccountedIff(c.edition, all, P.Round(t, served + ServedNow(s), changes), e.accepted);
  }

  lemma Grouped(a: seq<int>, b: seq<int>, c: seq<int>)
    ensures a + (b + c) == a + b + c
  {
  }

  lemma {:induction false} RunAccounted(c: Config, s: Server, ls: seq<Label>, all: seq<int>, served: seq<int>,
                                        changes: nat)
    requires Inv(c, s) && Iterations(ls) && FreshRun(c, s, ls) && CleanAccepts(c, s, ls)
    requires P.Accounted(all, P.Round(s.table, served, changes))
    ensures Run(c, s, ls).Running? ==>
              P.Accounted(all, P.Round(Run(c, s, ls).server.table, served + Served(c, s, ls),
                                       changes + Changes(c, s, ls)))
    decreases |ls|
  {
    if ls == [] {
      assert served + [] == served;
    } else if Step(c, s, ls[0]).Running? {
      var o := Step(c, s, ls[0]);
      StepInv(c, s, ls[0]);
      ServeAccounted(c, s, ls[0].input, all, served, changes);
      RunAccounted(c, o.server, ls[1..], all, served + ServedNow(s), changes + ChangesNow(s, o));
      Grouped(served, ServedNow(s), Served(c, o.server, ls[1..]));
    }
  }

  lemma {:induction false} PolledIsOnly(t: Table, ready: set<int>, i: nat)
    requires i <= t.num && Asks(t)
    ensures P.PendingFrom(Polled(t, ready).slots, i, t.num) == P.Only(TableFds(t)[i..], ready)
    decreases t.num - i
  {
    if i < t.num {
      PolledIsOnly(t, ready, i + 1);
      assert TableFds(t)[i..][1..] == TableFds(t)[i + 1..];
    }
  }

  /** After a poll, pending are exactly the descriptors of the table that are ready, in its order. */
  lemma ReadyIsPending(c: Config, s: Server, ready: set<int>)
    requires Inv(c, s)
    ensures P.Pending(Step(c, s, Poll(ready)).server.table) == P.Only(TableFds(s.table), ready)
  {
    PolledIsOnly(s.table, ready, 0);
    assert TableFds(s.table)[0..] == TableFds(s.table);
  }

  /** A poll in any reachable state makes pending exactly those of stdin, the UDP and the TCP socket and
      the connections, the first accepted first, that are ready. */
  lemma ReadyFromStart(c: Config, recvMsg: seq<Byte>, ls: seq<Label>, ready: set<int>)
    requires Descriptors(c) && |recvMsg| == CTOS_LEN
    requires ProperRun(ls) && FreshRun(c, Start(c, recvMsg), ls)
    ensures var o := Run(c, Start(c, recvMsg), ls);
            o.Running? ==>
              P.Pending(Step(c, o.server, Poll(ready)).server.table)
              == P.Only([STDIN, c.udpFd, c.tcpFd] + Reverse(ClientFds(o.server.clients)), ready)
  {
    StartInv(c, recvMsg);
    RunInv(c, Start(c, recvMsg), ls);
    var o := Run(c, Start(c, recvMsg), ls);
    if o.Running? {
      AgreementAsSequences(c, o.server.clients, o.server.table);
      ReadyIsPending(c, o.server, ready);
    }
  }

  lemma ReadyNoRepeats(c: Config, s: Server, ready: set<int>)
    requires Inv(c, s)
    ensures Inv(c, StartRound(s, ready)) && P.NoRepeats(P.Pending(StartRound(s, ready).table))
  {
    StepInv(c, s, Poll(ready));
    AgreementAsSequences(c, s.clients, s.table);
    P.PendingNoRepeats(StartRound(s, ready).table.slots, 0, s.table.num);
  }

  /** A round as a whole keeps the account of its poll. */
  lemma RoundAccounted(c: Config, s: Server, ready: set<int>, ls: seq<Label>)
    requires Inv(c, s) && Iterations(ls) && FreshRun(c, StartRound(s, ready), ls)
    requires CleanAccepts(c, StartRound(s, ready), ls)
    ensures var s0 := StartRound(s, ready);
            var o := Run(c, s0, ls);
            o.Running? ==>
              && Inv(c, o.server) && P.NoRepeats(P.Pending(s0.table))
              && P.Accounted(P.Pending(s0.table), P.Round(o.server.table, Served(c, s0, ls), Changes(c, s0, ls)))
  {
    var s0 := StartRound(s, ready);
    var all, served := P.Pending(s0.table), Served(c, s0, ls);
    ReadyNoRepeats(c, s, ready);
    P.SubRefl(all);
    assert [] + all == all && [] + served == served;
    RunAccounted(c, s0, ls, all, [], 0);
    RunInv(c, s0, ls);
  }

  /** A round of the server, in either edition, in which every accept finds a clean slot, as the
      repaired one always does: the descriptors served were in the table and ready at the poll, come in
      the order of the table and are not repeated. When the iterator finds nothing more, those left
      unserved are no more than the connections accepted and closed since; if there were none, the
      descriptors served are exactly those of the table that were ready. */
  lemma RoundServes(c: Config, s: Server, ready: set<int>, ls: seq<Label>)
    requires Inv(c, s) && Iterations(ls) && FreshRun(c, Step(c, s, Poll(ready)).server, ls)
    requires CleanAccepts(c, Step(c, s, Poll(ready)).server, ls)
    ensures var s0 := Step(c, s, Poll(ready)).server;
            var (all, served, changes) := (P.Only(TableFds(s.table), ready), Served(c, s0, ls), Changes(c, s0, ls));
            Run(c, s0, ls).Running? ==>
              && P.Sub(served, all) && P.NoRepeats(served)
              && (ServedNow(Run(c, s0, ls).server) == [] ==>
                    |all| <= |served| + changes && (changes == 0 ==> served == all))
  {
    var s0 := StartRound(s, ready);
    RoundAccounted(c, s, ready, ls);
    ReadyIsPending(c, s, ready);
    if Run(c, s0, ls).Running? {
      var s' := Run(c, s0, ls).server;
      P.AccountedMeans(P.Pending(s0.table), P.Round(s'.table, Served(c, s0, ls), Changes(c, s0, ls)));
      NextServes(c, s');
    }
  }
}
