/** poller.c: the poll table, and an iterator over it that lives across insertions and removals. */
module Pollers {
  import opened Base

  const MAX_CONNECTIONS := 1000

  /** struct pollfd; events and revents hold just the POLLIN bit, the only one the program uses. */
  datatype Slot = Slot(fd: int, events: bool, revents: bool)

  /** struct poller: all the slots, how many are in use, and the iterator. */
  datatype Table = Table(slots: seq<Slot>, num: nat, idx: nat)

  ghost predicate Fits(t: Table) {
    |t.slots| == MAX_CONNECTIONS && t.num <= MAX_CONNECTIONS
  }

  /** poll(): the descriptors in ready report POLLIN if asked for it; unused slots are not touched. */
  function Reported(slots: seq<Slot>, num: nat, ready: set<int>): (r: seq<Slot>)
    ensures |r| == |slots|
    ensures forall i {:trigger r[i]} :: 0 <= i < |r| ==>
              r[i] == if i < num then slots[i].(revents := slots[i].events && slots[i].fd in ready) else slots[i]
  {
    seq(|slots|, i requires 0 <= i < |slots| =>
      if i < num then slots[i].(revents := slots[i].events && slots[i].fd in ready) else slots[i])
  }

  function Polled(t: Table, ready: set<int>): Table {
    t.(idx := 0, slots := Reported(t.slots, t.num, ready))
  }

  function WithFd(edition: Edition, t: Table, fd: int): Table
    requires t.num < |t.slots|
  {
    // Repair: as written the slot keeps the revents of its previous occupant.
    var revents := edition.AsWritten? && t.slots[t.num].revents;
    t.(slots := t.slots[t.num := Slot(fd, true, revents)], num := t.num + 1)
  }

  /** First slot in use with the descriptor, or -1. */
  function FdIndex(t: Table, fd: int): (k: int)
    requires t.num <= |t.slots|
    ensures -1 <= k < t.num && (0 <= k ==> t.slots[k].fd == fd)
  {
    FdIndexFrom(t, fd, 0)
  }

  function FdIndexFrom(t: Table, fd: int, i: nat): (k: int)
    requires i <= t.num <= |t.slots|
    ensures k == -1 || (i <= k < t.num && t.slots[k].fd == fd)
    decreases t.num - i
  {
    if i == t.num then -1 else if t.slots[i].fd == fd then i else FdIndexFrom(t, fd, i + 1)
  }

  lemma {:induction false} FdIndexIsFirst(t: Table, fd: int, i: nat)
    requires i <= t.num <= |t.slots|
    ensures var k := FdIndexFrom(t, fd, i);
            forall j :: i <= j < (if k < 0 then t.num else k) ==> t.slots[j].fd != fd
    decreases t.num - i
  {
    if i < t.num && t.slots[i].fd != fd {
      FdIndexIsFirst(t, fd, i + 1);
    }
  }

  /** Slots k+1 .. num-1 move down by one; the last one keeps a copy of what it held. */
  function ShiftedFrom(slots: seq<Slot>, k: nat, num: nat): (r: seq<Slot>)
    requires k < num <= |slots|
    ensures |r| == |slots|
    ensures forall i {:trigger r[i]} :: 0 <= i < |r| ==> r[i] == if k <= i < num - 1 then slots[i + 1] else slots[i]
  {
    seq(|slots|, i requires 0 <= i < |slots| => if k <= i < num - 1 then slots[i + 1] else slots[i])
  }

  function WithoutFd(t: Table, fd: int): Table
    requires t.num <= |t.slots|
  {
    var k := FdIndex(t, fd);
    if k < 0 then t else t.(slots := ShiftedFrom(t.slots, k, t.num), num := t.num - 1)
  }

  /** First slot in use with POLLIN at or after i; i itself when it is past the slots in use. */
  function NextReady(t: Table, i: nat): (j: nat)
    requires t.num <= |t.slots|
    ensures i <= j && (i <= t.num ==> j <= t.num)
    ensures j < t.num ==> t.slots[j].revents
    ensures t.num <= i ==> j == i
    decreases t.num - i
  {
    if i < t.num && !t.slots[i].revents then NextReady(t, i + 1) else i
  }

  lemma {:induction false} NextReadyIsFirst(t: Table, i: nat)
    requires t.num <= |t.slots|
    ensures forall k :: i <= k < NextReady(t, i) && k < t.num ==> !t.slots[k].revents
    decreases t.num - i
  {
    if i < t.num && !t.slots[i].revents {
      NextReadyIsFirst(t, i + 1);
    }
  }

  /** The descriptor poller_next_fd_with_POLLIN returns, -1 for none, and the table after it. */
  function NextFd(t: Table): (int, Table)
    requires t.num <= |t.slots|
  {
    var j := NextReady(t, t.idx);
    if j < t.num then (t.slots[j].fd, t.(idx := j + 1)) else (-1, t.(idx := j))
  }

  class Poller {
    const edition: Edition
    const pollfds: array<Slot>
    var num: nat
    var idx: nat

    ghost predicate Valid()
      reads this
    {
      pollfds.Length == MAX_CONNECTIONS && num <= MAX_CONNECTIONS
    }

    ghost function State(): Table
      reads this, pollfds
    {
      Table(pollfds[..], num, idx)
    }

    constructor (edition: Edition)
      ensures Valid() && fresh(pollfds) && this.edition == edition
      ensures State() == Table(seq(MAX_CONNECTIONS, _ => Slot(0, false, false)), 0, 0)
    {
      this.edition := edition;
      pollfds := new Slot[MAX_CONNECTIONS](_ => Slot(0, false, false));
      num, idx := 0, 0;
      new;
      assert pollfds[..] == seq(MAX_CONNECTIONS, _ => Slot(0, false, false));
    }

    method Poll(ready: set<int>)
      requires Valid()
      modifies this`idx, pollfds
      ensures Valid()
      ensures State() == Polled(old(State()), ready)
    {
      idx := 0;
      for i := 0 to num
        invariant idx == 0 && num == old(num)
        invariant forall k :: 0 <= k < i ==>
                    pollfds[k] == old(pollfds[k]).(revents := old(pollfds[k]).events && old(pollfds[k]).fd in ready)
        invariant forall k :: i <= k < MAX_CONNECTIONS ==> pollfds[k] == old(pollfds[k])
      {
        pollfds[i] := pollfds[i].(revents := pollfds[i].events && pollfds[i].fd in ready);
      }
      assert pollfds[..] == Reported(old(pollfds[..]), num, ready);
    }

    /** fault: the slot lies outside the array. */
    method AddFd(fd: int) returns (fault: bool)
      requires Valid()
      modifies this`num, pollfds
      ensures Valid()
      ensures fault == (old(num) == MAX_CONNECTIONS)
      ensures State() == if fault then old(State()) else WithFd(edition, old(State()), fd)
    {
      if num == MAX_CONNECTIONS {
        return true;
      }
      pollfds[num] := pollfds[num].(fd := fd);
      pollfds[num] := pollfds[num].(events := true);
      // Repair: as written the slot keeps the revents of whoever used it last.
      if edition.Repaired? {
        pollfds[num] := pollfds[num].(revents := false);
      }
      assert pollfds[..] == WithFd(edition, old(State()), fd).slots;
      num := num + 1;
      return false;
    }

    method FindFdIdx(fd: int) returns (k: int)
      requires Valid()
      ensures k == FdIndex(State(), fd)
    {
      for i := 0 to num
        invariant FdIndexFrom(State(), fd, 0) == FdIndexFrom(State(), fd, i)
      {
        if pollfds[i].fd == fd {
          return i;
        }
      }
      return -1;
    }

    method RemoveFd(fd: int)
      requires Valid()
      modifies this`num, pollfds
      ensures Valid()
      ensures State() == WithoutFd(old(State()), fd)
    {
      var k := FindFdIdx(fd);
      if k < 0 {
        return;
      }
      ShiftFrom(k);
      num := num - 1;
    }

    /** The loop of poller_remove_fd. */
    method ShiftFrom(k: nat)
      requires Valid() && k < num
      modifies pollfds
      ensures pollfds[..] == ShiftedFrom(old(pollfds[..]), k, num)
    {
      for i := k to num - 1
        invariant forall j :: k <= j < i ==> pollfds[j] == old(pollfds[j + 1])
        invariant forall j :: 0 <= j < k || i <= j < MAX_CONNECTIONS ==> pollfds[j] == old(pollfds[j])
      {
        pollfds[i] := pollfds[i + 1];
      }
      assert pollfds[..] == ShiftedFrom(old(pollfds[..]), k, num);
    }

    method NextFdWithPollin() returns (fd: int)
      requires Valid()
      modifies this`idx
      ensures Valid()
      ensures (fd, State()) == NextFd(old(State()))
    {
      while idx < num && !pollfds[idx].revents
        invariant NextReady(old(State()), idx) == NextReady(old(State()), old(idx))
        decreases num - idx
      {
        idx := idx + 1;
      }
      if num <= idx {
        return -1;
      }
      fd := pollfds[idx].fd;
      idx := idx + 1;
    }

    method Advance()
      requires Valid()
      modifies this`idx
      ensures Valid()
      ensures State() == old(State()).(idx := old(idx) + 1)
    {
      idx := idx + 1;
    }
  }
}
