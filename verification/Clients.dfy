/** clients.c: the doubly linked list of client nodes. */
module Clients {
  import opened Base

  const ID_MAXLEN := 10  // with its terminator

  datatype ClientState = New | Connected

  datatype Client = Client(state: ClientState, fd: int, id: Str, ip: seq<Byte>, port: seq<Byte>)

  /** First client with the given id, or -1. */
  function IndexById(cs: seq<Client>, id: Str): (k: int)
    ensures -1 <= k < |cs|
    ensures 0 <= k ==> cs[k].id == id && forall j :: 0 <= j < k ==> cs[j].id != id
    ensures k == -1 ==> forall j :: 0 <= j < |cs| ==> cs[j].id != id
  {
    if cs == [] then -1
    else if cs[0].id == id then 0
    else
      var k := IndexById(cs[1..], id);
      assert forall j :: 1 <= j < |cs| ==> cs[j] == cs[1..][j - 1];
      if k < 0 then -1 else k + 1
  }

  /** First client with the given descriptor, or -1. */
  function IndexByFd(cs: seq<Client>, fd: int): (k: int)
    ensures -1 <= k < |cs|
    ensures 0 <= k ==> cs[k].fd == fd && forall j :: 0 <= j < k ==> cs[j].fd != fd
    ensures k == -1 ==> forall j :: 0 <= j < |cs| ==> cs[j].fd != fd
  {
    if cs == [] then -1
    else if cs[0].fd == fd then 0
    else
      var k := IndexByFd(cs[1..], fd);
      assert forall j :: 1 <= j < |cs| ==> cs[j] == cs[1..][j - 1];
      if k < 0 then -1 else k + 1
  }

  /** struct client_node: the client's data between its two links. */
  class ClientNode {
    var data: Client
    var prev: ClientNode?
    var next: ClientNode?

    constructor (data: Client)
      ensures this.data == data && prev == null && next == null
    {
      this.data := data;
      prev, next := null, null;
    }
  }

  /** next and prev are mutually inverse along nodes, which hold contents. As written, the prev of
      the head may be stale after a removal. */
  ghost predicate Links(edition: Edition, head: ClientNode?, nodes: seq<ClientNode>, contents: seq<Client>)
    reads nodes
  {
    && head == (if nodes == [] then null else nodes[0])
    && (forall i {:trigger nodes[i].next} :: 0 <= i < |nodes| ==>
          nodes[i].next == if i + 1 < |nodes| then nodes[i + 1] else null)
    && (forall i {:trigger nodes[i].prev} :: 0 < i < |nodes| ==> nodes[i].prev == nodes[i - 1])
    && (edition.Repaired? && nodes != [] ==> nodes[0].prev == null)
    && |contents| == |nodes|
    && (forall i {:trigger nodes[i].data} :: 0 <= i < |nodes| ==> nodes[i].data == contents[i])
  }

  class ClientList {
    const edition: Edition
    var head: ClientNode?
    ghost var Nodes: seq<ClientNode>    // the nodes reachable from head, in order
    ghost var Contents: seq<Client>     // what they hold
    ghost var Created: set<ClientNode>  // every node ever handed to the list
    ghost var Freed: set<ClientNode>    // the nodes passed to free()

    ghost predicate Valid()
      reads this, Created
    {
      Owned(Nodes, Created, Freed) && Links(edition, head, Nodes, Contents)
    }

    /** What a well-formed list holds. */
    ghost function View(): Option<seq<Client>>
      reads this, Created
    {
      if Valid() then Some(Contents) else None
    }

    constructor (edition: Edition)
      ensures Valid() && this.edition == edition
      ensures Nodes == [] && Contents == [] && Created == {} && Freed == {}
    {
      this.edition := edition;
      head := null;
      Nodes, Contents, Created, Freed := [], [], {}, {};
    }

    method AddClient(client: ClientNode)
      requires Valid() && client !in Created
      requires client.prev == null && client.next == null
      modifies this, client, Created
      ensures Valid()
      ensures Nodes == [client] + old(Nodes)
      ensures Contents == [client.data] + old(Contents) && client.data == old(client.data)
      ensures Created == old(Created) + {client} && Freed == old(Freed)
    {
      OwnedAfterAdd(Nodes, Created, Freed, client);
      Created := Created + {client};
      Nodes, Contents := [client] + Nodes, [client.data] + Contents;
      if head == null {
        head := client;
        return;
      }
      client.next := head;
      head.prev := client;
      head := client;
    }

    /** The comparison of fields, prev and next decides identity with the head. */
    method IsHead(client: ClientNode) returns (b: bool)
      requires Valid() && client in Nodes
      ensures b <==> client == head
    {
      b := head.data.fd == client.data.fd
           && head.data.id == client.data.id
           && head.data.state == client.data.state
           && head.prev == client.prev
           && head.next == client.next;
      ghost var k := IndexOf(Nodes, client);
      assert client == Nodes[k];
      if 0 < k {
        assert Nodes[0].next == Nodes[1];
        assert k + 1 < |Nodes| ==> client.next == Nodes[k + 1];
      }
    }

    /** Relinks the neighbours of a node that is not the head. */
    method Unlink(client: ClientNode, ghost k: nat) returns (fault: bool)
      requires Valid() && 0 < k < |Nodes| && client == Nodes[k]
      modifies Nodes
      ensures fault == RemovalFaults(edition, |Nodes|, k)
      ensures Links(edition, head, if fault then Nodes else DropAt(Nodes, k),
                    if fault then Contents else DropAt(Contents, k))
    {
      assert client.prev == Nodes[k - 1];
      if client.next == null {
        // Repair: the tail has no successor to relink; as written this dereferences NULL.
        if edition.AsWritten? {
          return true;
        }
      } else {
        assert client.next == Nodes[k + 1];
        client.next.prev := client.prev;
      }
      client.prev.next := client.next;
      ghost var rest := DropAt(Nodes, k);
      forall i | 0 <= i < |rest|
        ensures rest[i].data == DropAt(Contents, k)[i]
        ensures rest[i].next == if i + 1 < |rest| then rest[i + 1] else null
        ensures 0 < i ==> rest[i].prev == rest[i - 1]
      {
        ghost var j := if i < k then i else i + 1;
        assert rest[i] == Nodes[j];
        assert old(Nodes[j].next) == if j + 1 < |Nodes| then Nodes[j + 1] else null;
        assert 0 < j ==> old(Nodes[j].prev) == Nodes[j - 1];
      }
      return false;
    }

    /** Makes the second node the head. */
    method UnlinkHead()
      requires Valid() && Nodes != []
      modifies this`head, Nodes
      ensures Links(edition, head, DropAt(Nodes, 0), DropAt(Contents, 0))
    {
      ghost var rest := DropAt(Nodes, 0);
      assert rest == Nodes[1..] && DropAt(Contents, 0) == Contents[1..];
      assert head.next == if 1 < |Nodes| then Nodes[1] else null;
      head := head.next;
      // Repair: the new head's prev would stay stale.
      if edition.Repaired? && head != null {
        head.prev := null;
      }
      forall i | 0 <= i < |rest|
        ensures rest[i].data == Contents[1..][i]
        ensures rest[i].next == if i + 1 < |rest| then rest[i + 1] else null
        ensures 0 < i ==> rest[i].prev == rest[i - 1]
      {
        assert rest[i] == Nodes[i + 1];
        assert old(Nodes[i + 1].next) == if i + 2 < |Nodes| then Nodes[i + 2] else null;
        assert 0 < i ==> old(Nodes[i + 1].prev) == Nodes[i];
      }
    }

    /** fault: the code dereferences NULL. Otherwise exactly this node leaves the list. */
    method RemoveClient(client: ClientNode?) returns (fault: bool)
      requires Valid()
      requires client != null ==> client in Nodes
      modifies this, Created
      ensures Valid()
      ensures Created == old(Created)
      ensures client == null ==> !fault && Nodes == old(Nodes) && Contents == old(Contents) && Freed == old(Freed)
      ensures client != null ==>
                var k := IndexOf(old(Nodes), client);
                && fault == RemovalFaults(edition, |old(Nodes)|, k)
                && Nodes == (if fault then old(Nodes) else DropAt(old(Nodes), k))
                && Contents == (if fault then old(Contents) else DropAt(old(Contents), k))
                && Freed == (if fault then old(Freed) else old(Freed) + {client})
    {
      if head == null || client == null {
        return false;
      }
      ghost var k := IndexOf(Nodes, client);
      fault := false;
      var isHead := IsHead(client);
      if isHead {
        UnlinkHead();
      } else {
        fault := Unlink(client, k);
        if fault {
          return;
        }
      }
      OwnedAfterFree(Nodes, Created, Freed, k);
      Nodes := DropAt(Nodes, k);
      Contents := DropAt(Contents, k);
      Freed := Freed + {client};
      assert Links(edition, head, Nodes, Contents);
    }

    method FindById(id: Str) returns (client: ClientNode?)
      requires Valid()
      ensures client == if IndexById(Contents, id) < 0 then null else Nodes[IndexById(Contents, id)]
    {
      var current := head;
      ghost var i := 0;
      while current != null
        invariant 0 <= i <= |Nodes|
        invariant current == if i < |Nodes| then Nodes[i] else null
        invariant forall j :: 0 <= j < i ==> Contents[j].id != id
        decreases |Nodes| - i
      {
        if current.data.id == id {
          return current;
        }
        current := current.next;
        i := i + 1;
      }
      return null;
    }

    method FindByFd(fd: int) returns (client: ClientNode?)
      requires Valid()
      ensures client == if IndexByFd(Contents, fd) < 0 then null else Nodes[IndexByFd(Contents, fd)]
    {
      var current := head;
      ghost var i := 0;
      while current != null
        invariant 0 <= i <= |Nodes|
        invariant current == if i < |Nodes| then Nodes[i] else null
        invariant forall j :: 0 <= j < i ==> Contents[j].fd != fd
        decreases |Nodes| - i
      {
        if current.data.fd == fd {
          return current;
        }
        current := current.next;
        i := i + 1;
      }
      return null;
    }

    method RemoveClientByFd(fd: int) returns (fault: bool)
      requires Valid()
      modifies this, Created
      ensures Valid() && Created == old(Created)
      ensures var k := IndexByFd(old(Contents), fd);
              if k < 0 then !fault && Contents == old(Contents) && Nodes == old(Nodes) && Freed == old(Freed)
              else
                && fault == RemovalFaults(edition, |old(Contents)|, k)
                && Contents == (if fault then old(Contents) else DropAt(old(Contents), k))
                && Nodes == (if fault then old(Nodes) else DropAt(old(Nodes), k))
                && Freed == (if fault then old(Freed) else old(Freed) + {old(Nodes)[k]})
    {
      var removed := FindByFd(fd);
      fault := RemoveClient(removed);
    }

    /** fault: the id does not fit the node's buffer. */
    method UpdateClientByFd(fd: int, state: ClientState, id: Str) returns (fault: bool)
      requires Valid()
      modifies this, Created
      ensures Valid() && Created == old(Created) && Nodes == old(Nodes) && Freed == old(Freed)
      ensures var k := IndexByFd(old(Contents), fd);
              && fault == (0 <= k && ID_MAXLEN <= |id|)
              && Contents == if k < 0 || fault then old(Contents)
                             else old(Contents)[k := old(Contents)[k].(state := state, id := id)]
    {
      var client := FindByFd(fd);
      if client == null {
        return false;
      }
      if ID_MAXLEN <= |id| {
        return true;
      }
      ghost var k := IndexByFd(Contents, fd);
      client.data := client.data.(state := state, id := id);
      Contents := Contents[k := client.data];
      forall i | 0 <= i < |Nodes|
        ensures Nodes[i].data == Contents[i]
      {
        assert i != k ==> Nodes[i] != client;
      }
      return false;
    }

    /** Frees every node, head first; order lists the calls of free(). Never faults, in either edition. */
    method Destroy() returns (ghost order: seq<ClientNode>)
      requires Valid()
      modifies this, Created
      ensures Valid() && Nodes == []
      ensures order == old(Nodes)
      ensures Created == old(Created) == Freed
    {
      order := [];
      while head != null
        invariant Valid() && Created == old(Created)
        invariant order + Nodes == old(Nodes)
        decreases |Nodes|
      {
        FirstFreed(order, Nodes);
        order := order + [Nodes[0]];
        var fault := RemoveClient(head);
      }
    }
  }
}
