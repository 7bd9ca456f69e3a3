/** What one round of the event loop gets out of the poll table when connections are accepted and
    closed between the calls of the iterator. */
module PollRound {
  import opened Base
  import opened Pollers

  /** Accept is poller_add_fd followed by poller_advance, Close is poller_remove_fd. */
  datatype Op = Next | Accept(fd: int) | Close(fd: int)

  /** The table, the descriptors returned in this round, and how many accepts and closes it has seen. */
  datatype Round = Round(table: Table, returned: seq<int>, changes: nat)

  /** The ready descriptors from slot i on. */
  function PendingFrom(slots: seq<Slot>, i: nat, num: nat): seq<int>
    requires num <= |slots|
    decreases num - i
  {
    if num <= i then []
    else if slots[i].revents then [slots[i].fd] + PendingFrom(slots, i + 1, num)
    else PendingFrom(slots, i + 1, num)
  }

  function Pending(t: Table): seq<int>
    requires t.num <= |t.slots|
  {
    PendingFrom(t.slots, t.idx, t.num)
  }

  /** Those of fds that are ready, in their order. */
  function Only(fds: seq<int>, ready: set<int>): (r: seq<int>)
    ensures forall fd :: fd in r <==> fd in fds && fd in ready
  {
    if fds == [] then [] else (if fds[0] in ready then [fds[0]] else []) + Only(fds[1..], ready)
  }

  /** The slot the next accept will use does not carry POLLIN over from an earlier occupant, or the
      iterator, advanced once more, is beyond it. */
  predicate CleanSlot(edition: Edition, t: Table) {
    t.num < |t.slots| && (edition.Repaired? || !t.slots[t.num].revents || t.num <= t.idx)
  }

  function Step(edition: Edition, r: Round, op: Op): Round
    requires r.table.num <= |r.table.slots|
    requires op.Accept? ==> r.table.num < |r.table.slots|
  {
    match op
    case Next =>
      var (fd, t) := NextFd(r.table);
      var found := NextReady(r.table, r.table.idx) < r.table.num;
      r.(table := t, returned := if found then r.returned + [fd] else r.returned)
    case Accept(fd) =>
      var t := WithFd(edition, r.table, fd);
      r.(table := t.(idx := t.idx + 1), changes := r.changes + 1)
    case Close(fd) =>
      r.(table := WithoutFd(r.table, fd), changes := r.changes + 1)
  }

  /** Every accept of the run finds a clean slot. */
  ghost predicate CleanRun(edition: Edition, r: Round, ops: seq<Op>)
    decreases |ops|
  {
    ops == [] ||
    (r.table.num <= |r.table.slots| && (ops[0].Accept? ==> CleanSlot(edition, r.table))
     && CleanRun(edition, Step(edition, r, ops[0]), ops[1..]))
  }

  function Run(edition: Edition, r: Round, ops: seq<Op>): Round
    requires CleanRun(edition, r, ops)
    decreases |ops|
  {
    if ops == [] then r else Run(edition, Step(edition, r, ops[0]), ops[1..])
  }

  /** a is b with some elements left out. */
  predicate Sub(a: seq<int>, b: seq<int>) {
    a == [] || (b != [] && ((a[0] == b[0] && Sub(a[1..], b[1..])) || Sub(a, b[1..])))
  }

  lemma {:induction false} SubRefl(a: seq<int>)
    ensures Sub(a, a)
  {
    if a != [] {
      SubRefl(a[1..]);
    }
  }

  lemma {:induction false} SubTrans(a: seq<int>, b: seq<int>, c: seq<int>)
    requires Sub(a, b) && Sub(b, c)
    ensures Sub(a, c)
    decreases |b| + |c|
  {
    if a != [] {
      if b[0] == c[0] && Sub(b[1..], c[1..]) {
        if a[0] == b[0] && Sub(a[1..], b[1..]) {
          SubTrans(a[1..], b[1..], c[1..]);
        } else {
          SubTrans(a, b[1..], c[1..]);
        }
      } else {
        SubTrans(a, b, c[1..]);
      }
    }
  }

  lemma {:induction false} SubPrefix(x: seq<int>, a: seq<int>, b: seq<int>)
    requires Sub(a, b)
    ensures Sub(x + a, x + b)
  {
    if x == [] {
      assert x + a == a && x + b == b;
    } else {
      SubPrefix(x[1..], a, b);
      assert (x + a)[1..] == x[1..] + a && (x + b)[1..] == x[1..] + b;
    }
  }

  lemma {:induction false} SubShorter(a: seq<int>, b: seq<int>)
    requires Sub(a, b)
    ensures |a| <= |b| && (|a| == |b| ==> a == b)
    ensures forall x :: x in a ==> x in b
  {
    if a != [] {
      if a[0] == b[0] && Sub(a[1..], b[1..]) {
        SubShorter(a[1..], b[1..]);
        assert forall x :: x in a ==> x == a[0] || x in a[1..];
      } else {
        SubShorter(a, b[1..]);
      }
    }
  }

  predicate NoRepeats(s: seq<int>) {
    s == [] || (s[0] !in s[1..] && NoRepeats(s[1..]))
  }

  lemma {:induction false} SubNoRepeats(a: seq<int>, b: seq<int>)
    requires Sub(a, b) && NoRepeats(b)
    ensures NoRepeats(a)
  {
    if a != [] {
      if a[0] == b[0] && Sub(a[1..], b[1..]) {
        SubShorter(a[1..], b[1..]);
        SubNoRepeats(a[1..], b[1..]);
      } else {
        SubNoRepeats(a, b[1..]);
      }
    }
  }

  /** p loses at most one element against q, wherever it stands. */
  ghost predicate LosesAtMostOne(p: seq<int>, q: seq<int>) {
    Sub(p, q) && |q| <= |p| + 1
  }

  lemma {:induction false} PendingTail(slots: seq<Slot>, i: nat, num: nat)
    requires num <= |slots|
    ensures LosesAtMostOne(PendingFrom(slots, i + 1, num), PendingFrom(slots, i, num))
  {
    SubRefl(PendingFrom(slots, i + 1, num));
    if i < num && slots[i].revents {
      assert PendingFrom(slots, i, num)[1..] == PendingFrom(slots, i + 1, num);
    }
  }

  /** The iterator takes the first pending descriptor. */
  lemma {:induction false} PendingAfterNext(t: Table, i: nat)
    requires t.num <= |t.slots|
    ensures var j := NextReady(t, i);
            PendingFrom(t.slots, i, t.num)
            == if j < t.num then [t.slots[j].fd] + PendingFrom(t.slots, j + 1, t.num) else []
    decreases t.num - i
  {
    if i < t.num && !t.slots[i].revents {
      PendingAfterNext(t, i + 1);
    }
  }

  /** A slot without POLLIN at the end changes nothing. */
  lemma {:induction false} PendingAfterAdd(slots: seq<Slot>, i: nat, num: nat, slot: Slot)
    requires num < |slots|
    ensures PendingFrom(slots[num := slot], i, num + 1)
            == PendingFrom(slots, i, num) + if i <= num && slot.revents then [slot.fd] else []
    decreases num - i
  {
    if i < num {
      PendingAfterAdd(slots, i + 1, num, slot);
    } else if i == num {
      assert PendingFrom(slots[num := slot], num + 1, num + 1) == [];
    }
  }

  /** Behind the removed slot, the iterator's position now names the next slot. */
  lemma {:induction false} PendingShifted(slots: seq<Slot>, i: nat, k: nat, num: nat)
    requires k <= i && k < num <= |slots|
    ensures PendingFrom(ShiftedFrom(slots, k, num), i, num - 1) == PendingFrom(slots, i + 1, num)
    decreases num - i
  {
    if i < num - 1 {
      PendingShifted(slots, i + 1, k, num);
    }
  }

  /** At or ahead of the iterator, the removed slot takes its own descriptor with it. */
  lemma {:induction false} PendingWithoutAhead(slots: seq<Slot>, i: nat, k: nat, num: nat)
    requires i <= k < num <= |slots|
    ensures LosesAtMostOne(PendingFrom(ShiftedFrom(slots, k, num), i, num - 1), PendingFrom(slots, i, num))
    decreases k - i
  {
    if i == k {
      PendingShifted(slots, i, k, num);
      PendingTail(slots, i, num);
    } else {
      PendingWithoutAhead(slots, i + 1, k, num);
      var p, q := PendingFrom(ShiftedFrom(slots, k, num), i + 1, num - 1), PendingFrom(slots, i + 1, num);
      SubPrefix([slots[i].fd], p, q);
    }
  }

  /** One accept or one close costs at most one pending descriptor. */
  lemma ChangeLosesAtMostOne(edition: Edition, r: Round, op: Op)
    requires r.table.num <= |r.table.slots| && !op.Next?
    requires op.Accept? ==> CleanSlot(edition, r.table)
    ensures LosesAtMostOne(Pending(Step(edition, r, op).table), Pending(r.table))
  {
    var t := r.table;
    if op.Accept? {
      var slot := Slot(op.fd, true, edition.AsWritten? && t.slots[t.num].revents);
      PendingAfterAdd(t.slots, t.idx + 1, t.num, slot);
      assert PendingFrom(t.slots, t.idx + 1, t.num) + [] == PendingFrom(t.slots, t.idx + 1, t.num);
      PendingTail(t.slots, t.idx, t.num);
    } else {
      var k := FdIndex(t, op.fd);
      if k < 0 {
        SubRefl(Pending(t));
      } else if k < t.idx {
        PendingShifted(t.slots, t.idx, k, t.num);
        PendingTail(t.slots, t.idx, t.num);
      } else {
        PendingWithoutAhead(t.slots, t.idx, k, t.num);
      }
    }
  }

  /** What was returned and what is still pending is, in index order, what was ready at the poll,
      short of at most one descriptor for each accept and each close. */
  ghost predicate Accounted(ready: seq<int>, r: Round) {
    && r.table.num <= |r.table.slots|
    && Sub(r.returned + Pending(r.table), ready)
    && |ready| <= |r.returned| + |Pending(r.table)| + r.changes
  }

  lemma NextAccounted(edition: Edition, ready: seq<int>, r: Round)
    requires Accounted(ready, r)
    ensures Accounted(ready, Step(edition, r, Next))
  {
    var j := NextReady(r.table, r.table.idx);
    PendingAfterNext(r.table, r.table.idx);
    if j < r.table.num {
      var rest := PendingFrom(r.table.slots, j + 1, r.table.num);
      assert r.returned + [r.table.slots[j].fd] + rest == r.returned + ([r.table.slots[j].fd] + rest);
    }
  }

  lemma StepAccounted(edition: Edition, ready: seq<int>, r: Round, op: Op)
    requires Accounted(ready, r)
    requires op.Accept? ==> CleanSlot(edition, r.table)
    ensures Accounted(ready, Step(edition, r, op))
  {
    if op.Next? {
      NextAccounted(edition, ready, r);
    } else {
      var p, p' := Pending(r.table), Pending(Step(edition, r, op).table);
      ChangeLosesAtMostOne(edition, r, op);
      SubPrefix(r.returned, p', p);
      SubTrans(r.returned + p', r.returned + p, ready);
    }
  }

  /** An accept of a descriptor that was not ready keeps the account exactly when its slot is clean;
      otherwise the connection counts as ready, although no poll said so. */
  lemma AcceptAccountedIff(edition: Edition, ready: seq<int>, r: Round, fd: int)
    requires Accounted(ready, r) && r.table.num < |r.table.slots| && fd !in ready
    ensures Accounted(ready, Step(edition, r, Accept(fd))) <==> CleanSlot(edition, r.table)
  {
    var t, r' := r.table, Step(edition, r, Accept(fd));
    if CleanSlot(edition, t) {
      StepAccounted(edition, ready, r, Accept(fd));
    } else {
      PendingAfterAdd(t.slots, t.idx + 1, t.num, Slot(fd, true, true));
      var all := r'.returned + Pending(r'.table);
      assert all[|all| - 1] == fd;
      if Accounted(ready, r') {
        SubShorter(all, ready);
      }
    }
  }

  lemma {:induction false} RunAccounted(edition: Edition, ready: seq<int>, r: Round, ops: seq<Op>)
    requires Accounted(ready, r) && CleanRun(edition, r, ops)
    ensures Accounted(ready, Run(edition, r, ops))
    decreases |ops|
  {
    if ops != [] {
      StepAccounted(edition, ready, r, ops[0]);
      RunAccounted(edition, ready, Step(edition, r, ops[0]), ops[1..]);
    }
  }

  lemma AccountedMeans(all: seq<int>, r: Round)
    requires Accounted(all, r)
    ensures Sub(r.returned, all) && (NoRepeats(all) ==> NoRepeats(r.returned))
    ensures r.table.num <= NextReady(r.table, r.table.idx) ==>
              |all| <= |r.returned| + r.changes && (r.changes == 0 ==> r.returned == all)
  {
    PendingAfterNext(r.table, r.table.idx);
    SubPrefix(r.returned, [], Pending(r.table));
    assert r.returned + [] == r.returned;
    SubTrans(r.returned, r.returned + Pending(r.table), all);
    SubShorter(r.returned, all);
    if NoRepeats(all) {
      SubNoRepeats(r.returned, all);
    }
  }

  /** A round, from the poll on, in which descriptors are accepted and closed at any moment: those
      returned were ready, come in index order and are not repeated; once the iterator reports the
      end, at most one ready descriptor is missing for each accept and each close. */
  lemma IteratorAccounting(edition: Edition, t: Table, ready: set<int>, ops: seq<Op>)
    requires t.num <= |t.slots|
    requires CleanRun(edition, Round(Polled(t, ready), [], 0), ops)
    ensures var r := Run(edition, Round(Polled(t, ready), [], 0), ops);
            var all := Pending(Polled(t, ready));
            && Sub(r.returned, all)
            && ((forall j, k :: 0 <= j < k < t.num ==> t.slots[j].fd != t.slots[k].fd) ==> NoRepeats(r.returned))
            && r.table.num <= |r.table.slots|
            && (r.table.num <= NextReady(r.table, r.table.idx) ==> |all| <= |r.returned| + r.changes)
            && (r.table.num <= NextReady(r.table, r.table.idx) && r.changes == 0 ==> r.returned == all)
  {
    var r0 := Round(Polled(t, ready), [], 0);
    var all := Pending(Polled(t, ready));
    assert [] + all == all;
    SubRefl(all);
    RunAccounted(edition, all, r0, ops);
    AccountedMeans(all, Run(edition, r0, ops));
    if forall j, k :: 0 <= j < k < t.num ==> t.slots[j].fd != t.slots[k].fd {
      PendingNoRepeats(Polled(t, ready).slots, 0, t.num);
    }
  }

  /** After a poll, exactly the descriptors in use that asked for POLLIN and are ready are pending. */
  lemma {:induction false} PendingIsReady(t: Table, ready: set<int>, i: nat, fd: int)
    requires t.num <= |t.slots|
    ensures fd in PendingFrom(Reported(t.slots, t.num, ready), i, t.num)
            <==> exists k :: i <= k < t.num && t.slots[k].fd == fd && t.slots[k].events && fd in ready
    decreases t.num - i
  {
    if i < t.num {
      PendingIsReady(t, ready, i + 1, fd);
    }
  }

  /** As written, an accepted connection is served in the round of its accept, although the poll
      said nothing about it, exactly when its slot still carries POLLIN and the iterator is not
      beyond it. */
  lemma AcceptedIsPending(t: Table, fd: int)
    requires t.num < |t.slots| && (forall i :: 0 <= i < t.num ==> t.slots[i].fd != fd)
    ensures fd in Pending(Step(AsWritten, Round(t, [], 0), Accept(fd)).table)
            <==> t.slots[t.num].revents && t.idx + 1 <= t.num
  {
    var slot := Slot(fd, true, t.slots[t.num].revents);
    PendingAfterAdd(t.slots, t.idx + 1, t.num, slot);
    PendingBeyond(t.slots, t.idx + 1, t.num, fd);
  }

  /** As written, closing a connection leaves a copy of the last slot behind that no poll clears: the
      connection accepted next is served unasked exactly when that last slot was ready. */
  lemma AcceptAfterClose(t: Table, closed: int, ready: set<int>, i: nat, fd: int)
    requires 0 < t.num <= |t.slots| && 0 <= FdIndex(t, closed)
    requires forall j :: 0 <= j < t.num ==> t.slots[j].fd != fd
    ensures var polled := Polled(WithoutFd(t, closed), ready).(idx := i);
            && polled.num == t.num - 1
            && (fd in Pending(Step(AsWritten, Round(polled, [], 0), Accept(fd)).table)
                <==> t.slots[t.num - 1].revents && i + 1 <= t.num - 1)
  {
    var polled := Polled(WithoutFd(t, closed), ready).(idx := i);
    assert forall j :: 0 <= j < polled.num ==> polled.slots[j].fd == WithoutFd(t, closed).slots[j].fd;
    AcceptedIsPending(polled, fd);
  }

  /** Distinct descriptors in the table make the ready ones distinct. */
  lemma {:induction false} PendingNoRepeats(slots: seq<Slot>, i: nat, num: nat)
    requires num <= |slots| && (forall j, k :: i <= j < k < num ==> slots[j].fd != slots[k].fd)
    ensures NoRepeats(PendingFrom(slots, i, num))
    decreases num - i
  {
    if i < num {
      PendingNoRepeats(slots, i + 1, num);
      PendingBeyond(slots, i + 1, num, slots[i].fd);
    }
  }

  lemma {:induction false} PendingBeyond(slots: seq<Slot>, i: nat, num: nat, fd: int)
    requires num <= |slots| && (forall k :: i <= k < num ==> slots[k].fd != fd)
    ensures fd !in PendingFrom(slots, i, num)
    decreases num - i
  {
    if i < num {
      PendingBeyond(slots, i + 1, num, fd);
    }
  }
}
