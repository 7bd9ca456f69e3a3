/** subscriptions.c: the doubly linked list of subscriptions and its resumable cursor. */
module Subscriptions {
  import opened Base

  datatype Subscription = Subscription(topic: Str, id: Str, sf: int)

  /** First subscription of id to topic, or -1. */
  function IndexOfSub(subs: seq<Subscription>, topic: Str, id: Str): (k: int)
    ensures -1 <= k < |subs|
    ensures 0 <= k ==> subs[k].topic == topic && subs[k].id == id
                       && forall j :: 0 <= j < k ==> !(subs[j].topic == topic && subs[j].id == id)
    ensures k == -1 ==> forall j :: 0 <= j < |subs| ==> !(subs[j].topic == topic && subs[j].id == id)
  {
    if subs == [] then -1
    else if subs[0].topic == topic && subs[0].id == id then 0
    else
      var k := IndexOfSub(subs[1..], topic, id);
      assert forall j :: 1 <= j < |subs| ==> subs[j] == subs[1..][j - 1];
      if k < 0 then -1 else k + 1
  }

  /** First position at or after pos that holds the topic, or the length. */
  function NextMatch(subs: seq<Subscription>, pos: nat, topic: Str): (j: nat)
    requires pos <= |subs|
    ensures pos <= j <= |subs|
    ensures j < |subs| ==> subs[j].topic == topic
    decreases |subs| - pos
  {
    if pos == |subs| || subs[pos].topic == topic then pos else NextMatch(subs, pos + 1, topic)
  }

  lemma {:induction false} NextMatchIsFirst(subs: seq<Subscription>, pos: nat, topic: Str)
    requires pos <= |subs|
    ensures forall i :: pos <= i < NextMatch(subs, pos, topic) ==> subs[i].topic != topic
    decreases |subs| - pos
  {
    if pos < |subs| && subs[pos].topic != topic {
      NextMatchIsFirst(subs, pos + 1, topic);
    }
  }

  /** Where the cursor stands once element k has left the list: on the same element, or on the
      successor when the element under the cursor is the one that left. */
  function CursorAfterDrop(pos: nat, k: nat): nat {
    if k < pos then pos - 1 else pos
  }

  /** struct subscription_node: the subscription's data between its two links. */
  class SubNode {
    var data: Subscription
    var prev: SubNode?
    var next: SubNode?

    constructor (data: Subscription)
      ensures this.data == data && prev == null && next == null
    {
      this.data := data;
      prev, next := null, null;
    }
  }

  /** next and prev are mutually inverse along nodes, which hold contents. As written, the prev of
      the head may be stale after a removal. */
  ghost predicate Links(edition: Edition, head: SubNode?, nodes: seq<SubNode>, contents: seq<Subscription>)
    reads nodes
  {
    && head == (if nodes == [] then null else nodes[0])
    && (forall i {:trigger nodes[i].next} :: 0 <= i < |nodes| ==>
          nodes[i].next == if i + 1 < |nodes| then nodes[i + 1] else null)
    && (forall i {:trigger nodes[i].prev} :: 0 < i < |nodes| ==> nodes[i].prev == nodes[i - 1])
    && (edition.Repaired? && nodes != [] ==> nodes[0].prev == null)
    && |contents| == |nodes|
    && (forall i {:trigger nodes[i].data} :: 0 <= i < |nodes| ==> nodes[i].data == contents[i])
  }

  /** The cursor is NULL or the node at pos, which is reachable from the head. As written nothing
      ever moves it off NULL. */
  ghost predicate CursorAt(edition: Edition, current: SubNode?, nodes: seq<SubNode>, pos: nat) {
    && pos <= |nodes|
    && current == (if pos < |nodes| then nodes[pos] else null)
    && (edition.AsWritten? ==> pos == |nodes|)
  }

  class SubscriptionList {
    const edition: Edition
    var head: SubNode?
    var current: SubNode?
    ghost var Nodes: seq<SubNode>           // the nodes reachable from head, in order
    ghost var Contents: seq<Subscription>   // what they hold
    ghost var pos: nat                      // index of the cursor in Nodes; |Nodes| when it is NULL
    ghost var Created: set<SubNode>         // every node ever handed to the list
    ghost var Freed: set<SubNode>           // the nodes passed to free()

    ghost predicate Valid()
      reads this, Created
    {
      && Owned(Nodes, Created, Freed)
      && Links(edition, head, Nodes, Contents)
      && CursorAt(edition, current, Nodes, pos)
    }

    /** What a well-formed list holds, and where its cursor is. */
    ghost function View(): (v: Option<(seq<Subscription>, nat)>)
      reads this, Created
      ensures v.Some? ==> v.value.1 <= |v.value.0|
    {
      if Valid() then Some((Contents, pos)) else None
    }

    constructor (edition: Edition)
      ensures Valid() && this.edition == edition
      ensures Nodes == [] && Contents == [] && pos == 0 && Created == {} && Freed == {}
    {
      this.edition := edition;
      head, current := null, null;
      Nodes, Contents, pos, Created, Freed := [], [], 0, {}, {};
    }

    method AddSubscription(subscription: SubNode)
      requires Valid() && subscription !in Created
      requires subscription.prev == null && subscription.next == null
      modifies this, subscription, Created
      ensures Valid()
      ensures Nodes == [subscription] + old(Nodes)
      ensures Contents == [subscription.data] + old(Contents) && subscription.data == old(subscription.data)
      ensures pos == old(pos) + 1 && current == old(current)
      ensures Created == old(Created) + {subscription} && Freed == old(Freed)
    {
      OwnedAfterAdd(Nodes, Created, Freed, subscription);
      Created := Created + {subscription};
      Nodes, Contents, pos := [subscription] + Nodes, [subscription.data] + Contents, pos + 1;
      if head == null {
        head := subscription;
        return;
      }
      subscription.next := head;
      head.prev := subscription;
      head := subscription;
    }

    /** The comparison of fields, prev and next decides identity with the head, even when two nodes
        hold the same topic, id and flag. */
    method IsHead(subscription: SubNode) returns (b: bool)
      requires Owned(Nodes, Created, Freed) && Links(edition, head, Nodes, Contents) && subscription in Nodes
      ensures b <==> subscription == head
    {
      b := head.data.topic == subscription.data.topic
           && head.data.id == subscription.data.id
           && head.data.sf == subscription.data.sf
           && head.prev == subscription.prev
           && head.next == subscription.next;
      ghost var k := IndexOf(Nodes, subscription);
      assert subscription == Nodes[k];
      if 0 < k {
        assert Nodes[0].next == Nodes[1];
        assert k + 1 < |Nodes| ==> subscription.next == Nodes[k + 1];
      }
    }

    /** Relinks the neighbours of a node that is not the head. */
    method Unlink(subscription: SubNode, ghost k: nat) returns (fault: bool)
      requires Owned(Nodes, Created, Freed) && Links(edition, head, Nodes, Contents)
      requires 0 < k < |Nodes| && subscription == Nodes[k]
      modifies Nodes
      ensures fault == RemovalFaults(edition, |Nodes|, k)
      ensures Links(edition, head, if fault then Nodes else DropAt(Nodes, k),
                    if fault then Contents else DropAt(Contents, k))
    {
      assert subscription.prev == Nodes[k - 1];
      if subscription.next == null {
        // Repair: the tail has no successor to relink; as written this dereferences NULL.
        if edition.AsWritten? {
          return true;
        }
      } else {
        assert subscription.next == Nodes[k + 1];
        subscription.next.prev := subscription.prev;
      }
      subscription.prev.next := subscription.next;
      ghost var rest := DropAt(Nodes, k);
      forall i | 0 <= i < |rest|
        ensures rest[i].data == DropAt(Contents, k)[i]
        ensures rest[i].next == if i + 1 < |rest| then rest[i + 1] else null
        ensures 0 < i ==> rest[i].prev == rest[i - 1]
      {
        ghost var j := if i < k then i else i + 1;
        assert rest[i] == Nodes[j];
        assert old(Nodes[j].next) == if j + 1 < |Nodes| then Nodes[j + 1] else null;
        assert 0 < j ==> old(Nodes[j].prev) == Nodes[j - 1];
      }
      return false;
    }

    /** Makes the second node the head. */
    method UnlinkHead()
      requires Owned(Nodes, Created, Freed) && Links(edition, head, Nodes, Contents) && Nodes != []
      modifies this`head, Nodes
      ensures Links(edition, head, DropAt(Nodes, 0), DropAt(Contents, 0))
    {
      ghost var rest := DropAt(Nodes, 0);
      assert rest == Nodes[1..] && DropAt(Contents, 0) == Contents[1..];
      assert head.next == if 1 < |Nodes| then Nodes[1] else null;
      head := head.next;
      // Repair: the new head's prev would stay stale.
      if edition.Repaired? && head != null {
        head.prev := null;
      }
      forall i | 0 <= i < |rest|
        ensures rest[i].data == Contents[1..][i]
        ensures rest[i].next == if i + 1 < |rest| then rest[i + 1] else null
        ensures 0 < i ==> rest[i].prev == rest[i - 1]
      {
        assert rest[i] == Nodes[i + 1];
        assert old(Nodes[i + 1].next) == if i + 2 < |Nodes| then Nodes[i + 2] else null;
        assert 0 < i ==> old(Nodes[i + 1].prev) == Nodes[i];
      }
    }

    /** Moves the cursor off the node that is about to leave. As written the cursor is NULL, so the
        missing step shows only once a pass is restarted at the head. */
    method LeaveCursor(subscription: SubNode, ghost k: nat)
      requires Valid() && k < |Nodes| && subscription == Nodes[k]
      modifies this`current
      ensures CursorAt(edition, current, DropAt(Nodes, k), CursorAfterDrop(pos, k))
      ensures edition.AsWritten? ==> current == old(current)
    {
      // Repair: the cursor would be left on freed memory.
      if edition.Repaired? && current == subscription {
        assert subscription.next == if k + 1 < |Nodes| then Nodes[k + 1] else null;
        current := subscription.next;
      }
      assert pos < |Nodes| ==> (Nodes[pos] == subscription <==> pos == k);
    }

    /** Takes the node at position k out of the chain and frees it, whatever the cursor does. */
    method Detach(subscription: SubNode, ghost k: nat) returns (fault: bool)
      requires Owned(Nodes, Created, Freed) && Links(edition, head, Nodes, Contents)
      requires k < |Nodes| && subscription == Nodes[k]
      modifies this`head, this`Nodes, this`Contents, this`Freed, Created
      ensures Owned(Nodes, Created, Freed) && Links(edition, head, Nodes, Contents)
      ensures fault == RemovalFaults(edition, |old(Nodes)|, k)
      ensures fault ==> Nodes == old(Nodes) && Contents == old(Contents) && Freed == old(Freed)
      ensures !fault ==>
                && Nodes == DropAt(old(Nodes), k) && Contents == DropAt(old(Contents), k)
                && Freed == old(Freed) + {subscription}
    {
      fault := false;
      var isHead := IsHead(subscription);
      if isHead {
        UnlinkHead();
      } else {
        fault := Unlink(subscription, k);
        if fault {
          return;
        }
      }
      OwnedAfterFree(Nodes, Created, Freed, k);
      Nodes := DropAt(Nodes, k);
      Contents := DropAt(Contents, k);
      Freed := Freed + {subscription};
      assert Links(edition, head, Nodes, Contents);
    }

    /** fault: the code dereferences NULL. Otherwise exactly this node leaves the list. */
    method RemoveSubscription(subscription: SubNode?) returns (fault: bool)
      requires Valid()
      requires subscription != null ==> subscription in Nodes
      modifies this, Created
      ensures Valid() && Created == old(Created)
      ensures subscription == null ==>
                && !fault && pos == old(pos)
                && Nodes == old(Nodes) && Contents == old(Contents) && Freed == old(Freed)
      ensures subscription != null ==>
                var k := IndexOf(old(Nodes), subscription);
                && fault == RemovalFaults(edition, |old(Nodes)|, k)
                && (fault ==>
                      && Nodes == old(Nodes) && Contents == old(Contents)
                      && pos == old(pos) && Freed == old(Freed))
                && (!fault ==>
                      && Nodes == DropAt(old(Nodes), k) && Contents == DropAt(old(Contents), k)
                      && pos == CursorAfterDrop(old(pos), k) && Freed == old(Freed) + {subscription})
    {
      if head == null || subscription == null {
        return false;
      }
      ghost var k := IndexOf(Nodes, subscription);
      LeaveCursor(subscription, k);
      fault := Detach(subscription, k);
      if !fault {
        pos := CursorAfterDrop(pos, k);
      }
    }

    method Find(topic: Str, id: Str) returns (subscription: SubNode?)
      requires Valid()
      ensures subscription == if IndexOfSub(Contents, topic, id) < 0 then null
                              else Nodes[IndexOfSub(Contents, topic, id)]
    {
      var node := head;
      ghost var i := 0;
      while node != null
        invariant 0 <= i <= |Nodes|
        invariant node == if i < |Nodes| then Nodes[i] else null
        invariant forall j :: 0 <= j < i ==> !(Contents[j].topic == topic && Contents[j].id == id)
        decreases |Nodes| - i
      {
        if node.data.topic == topic && node.data.id == id {
          return node;
        }
        node := node.next;
        i := i + 1;
      }
      return null;
    }

    /** Repair: nothing in the C code puts the cursor back on the head before a pass. */
    method Rewind()
      requires Valid() && edition.Repaired?
      modifies this`current, this`pos
      ensures Valid() && pos == 0 && current == head
    {
      current := head;
      pos := 0;
    }

    /** The next subscription to topic at or after the cursor, which moves just past it; NULL, and
        an unmoved cursor, when there is none. */
    method GetNext(topic: Str) returns (subscription: SubNode?)
      requires Valid()
      modifies this`current, this`pos
      ensures Valid()
      ensures var j := NextMatch(Contents, old(pos), topic);
              if j < |Nodes| then subscription == Nodes[j] && pos == j + 1
              else subscription == null && pos == old(pos)
    {
      if head == null {
        return null;
      }
      var node := current;
      ghost var i := pos;
      while node != null
        invariant pos <= i <= |Nodes|
        invariant node == if i < |Nodes| then Nodes[i] else null
        invariant NextMatch(Contents, pos, topic) == NextMatch(Contents, i, topic)
        decreases |Nodes| - i
      {
        if node.data.topic == topic {
          current := node.next;
          pos := i + 1;
          return node;
        }
        node := node.next;
        i := i + 1;
      }
      return null;
    }

    /** Frees every node, head first; order lists the calls of free(). Never faults, in either edition. */
    method Destroy() returns (ghost order: seq<SubNode>)
      requires Valid()
      modifies this, Created
      ensures Valid() && Nodes == []
      ensures order == old(Nodes)
      ensures Created == old(Created) == Freed
    {
      order := [];
      while head != null
        invariant Valid() && Created == old(Created)
        invariant order + Nodes == old(Nodes)
        decreases |Nodes|
      {
        FirstFreed(order, Nodes);
        order := order + [Nodes[0]];
        var fault := RemoveSubscription(head);
      }
    }
  }
}
