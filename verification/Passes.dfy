/** A pass of the cursor on the heap: SubscriptionList under any calls does what CursorPass says. */
module Passes {
  import opened Base
  import opened Subscriptions
  import C = CursorPass

  datatype Call = GetNext | Add(sub: Subscription) | Remove(topic: Str, id: Str)

  lemma {:induction false} RunGrows<N>(p: C.Pass<N>, ops: seq<C.Op<N>>, op: C.Op<N>, topic: Str)
    requires C.EnabledRun(p, ops, topic)
    requires C.WellFormed(C.Run(p, ops, topic)) && C.Enabled(C.Run(p, ops, topic), op)
    ensures C.EnabledRun(p, ops + [op], topic)
    ensures C.Run(p, ops + [op], topic) == C.Step(C.Run(p, ops, topic), op, topic)
    decreases |ops|
  {
    if ops == [] {
      assert ([] + [op])[1..] == [];
    } else {
      assert (ops + [op])[1..] == ops[1..] + [op];
      RunGrows(C.Step(p, ops[0], topic), ops[1..], op, topic);
    }
  }

  /** The operation a call is, in the state p; none for a removal of what is not in the list. */
  ghost predicate Does<N>(p: C.Pass<N>, call: Call, op: Option<C.Op<N>>) {
    match call
    case GetNext => op == Some(C.Next)
    case Add(sub) => op.Some? && op.value.Add? && op.value.data == sub
    case Remove(t, id) =>
      var k := IndexOfSub(p.subs, t, id);
      op == if k < 0 then None else Some(C.Remove(k))
  }

  function Listed<N>(op: Option<C.Op<N>>): seq<C.Op<N>> {
    if op.Some? then [op.value] else []
  }

  /** ops are the operations of the calls, in order. */
  ghost predicate Performs<N>(p: C.Pass<N>, calls: seq<Call>, ops: seq<C.Op<N>>, topic: Str)
    requires C.EnabledRun(p, ops, topic)
    decreases |calls|
  {
    if calls == [] then ops == []
    else if Does(p, calls[0], None) then Performs(p, calls[1..], ops, topic)
    else
      && ops != [] && Does(p, calls[0], Some(ops[0]))
      && Performs(C.Step(p, ops[0], topic), calls[1..], ops[1..], topic)
  }

  lemma {:induction false} PerformsGrows<N>(p: C.Pass<N>, calls: seq<Call>, ops: seq<C.Op<N>>,
                                            call: Call, op: Option<C.Op<N>>, topic: Str)
    requires C.EnabledRun(p, ops, topic) && Performs(p, calls, ops, topic)
    requires Does(C.Run(p, ops, topic), call, op)
    requires op.Some? ==> C.WellFormed(C.Run(p, ops, topic)) && C.Enabled(C.Run(p, ops, topic), op.value)
    ensures C.EnabledRun(p, ops + Listed(op), topic) && Performs(p, calls + [call], ops + Listed(op), topic)
    decreases |calls|
  {
    if op.Some? {
      RunGrows(p, ops, op.value, topic);
    } else {
      assert ops + [] == ops;
    }
    if calls == [] {
      assert ([] + [call])[1..] == [] && (ops + Listed(op)) == Listed(op);
    } else {
      assert (calls + [call])[1..] == calls[1..] + [call];
      if Does(p, calls[0], None) {
        PerformsGrows(p, calls[1..], ops, call, op, topic);
      } else {
        assert (ops + Listed(op))[1..] == ops[1..] + Listed(op);
        PerformsGrows(C.Step(p, ops[0], topic), calls[1..], ops[1..], call, op, topic);
      }
    }
  }

  ghost function After<N>(p: C.Pass<N>, op: Option<C.Op<N>>, topic: Str): C.Pass<N>
    requires op.Some? ==> C.WellFormed(p) && C.Enabled(p, op.value)
  {
    if op.Some? then C.Step(p, op.value, topic) else p
  }

  /** The account of a pass goes on with its next call. */
  lemma PassGrows<N>(p0: C.Pass<N>, calls: seq<Call>, i: nat, ops: seq<C.Op<N>>, op: Option<C.Op<N>>, topic: Str)
    requires i < |calls| && C.EnabledRun(p0, ops, topic) && Performs(p0, calls[..i], ops, topic)
    requires Does(C.Run(p0, ops, topic), calls[i], op)
    requires op.Some? ==> C.WellFormed(C.Run(p0, ops, topic)) && C.Enabled(C.Run(p0, ops, topic), op.value)
    ensures C.EnabledRun(p0, ops + Listed(op), topic) && Performs(p0, calls[..i + 1], ops + Listed(op), topic)
    ensures C.Run(p0, ops + Listed(op), topic) == After(C.Run(p0, ops, topic), op, topic)
  {
    PerformsGrows(p0, calls[..i], ops, calls[i], op, topic);
    assert calls[..i + 1] == calls[..i] + [calls[i]];
    if op.Some? {
      RunGrows(p0, ops, op.value, topic);
    } else {
      assert ops + Listed(op) == ops;
    }
  }

  /** The list is where the pass p is; what was removed has been freed. */
  ghost predicate Tracks(list: SubscriptionList, p: C.Pass<SubNode>)
    reads list, list.Created
  {
    && list.Valid() && C.WellFormed(p)
    && p.nodes == list.Nodes && p.subs == list.Contents && p.pos == list.pos && p.removed <= list.Freed
  }

  /** One call: what get_next returned, if it was that, and the operation it was. */
  method Apply(list: SubscriptionList, call: Call, topic: Str, ghost p: C.Pass<SubNode>)
    returns (found: SubNode?, ghost op: Option<C.Op<SubNode>>)
    requires Tracks(list, p) && list.edition.Repaired?
    modifies list, list.Created
    ensures fresh(list.Created - old(list.Created))
    ensures Does(p, call, op) && (op.Some? ==> C.Enabled(p, op.value))
    ensures var p' := After(p, op, topic);
            Tracks(list, p') && p'.returned == p.returned + if found == null then [] else [found]
  {
    match call
    case GetNext =>
      op := Some(C.Next);
      C.StepWellFormed(p, C.Next, topic);
      found := list.GetNext(topic);
    case Add(sub) =>
      found := null;
      var node := new SubNode(sub);
      op := Some(C.Add(node, sub));
      C.StepWellFormed(p, op.value, topic);
      list.AddSubscription(node);
    case Remove(t, id) =>
      op := ApplyRemove(list, t, id, topic, p);
      found := null;
  }

  method ApplyRemove(list: SubscriptionList, t: Str, id: Str, topic: Str, ghost p: C.Pass<SubNode>)
    returns (ghost op: Option<C.Op<SubNode>>)
    requires Tracks(list, p) && list.edition.Repaired?
    modifies list, list.Created
    ensures list.Created == old(list.Created)
    ensures Does(p, Remove(t, id), op) && (op.Some? ==> C.Enabled(p, op.value))
    ensures var p' := After(p, op, topic);
            Tracks(list, p') && p'.returned == p.returned
  {
    var subscription := list.Find(t, id);
    ghost var k := IndexOfSub(list.Contents, t, id);
    if k < 0 {
      op := None;
    } else {
      op := Some(C.Remove(k));
      C.StepWellFormed(p, op.value, topic);
      assert IndexOf(list.Nodes, list.Nodes[k]) == k;
    }
    var fault := list.RemoveSubscription(subscription);
  }

  /** A pass from the head on, with any calls in between: the list and the nodes returned are those of
      the pass, so the surviving matches come once each, in list order, and all of them once get_next
      returns NULL. */
  method RunPass(list: SubscriptionList, calls: seq<Call>, topic: Str)
    returns (returned: seq<SubNode>, ghost ops: seq<C.Op<SubNode>>, ghost p: C.Pass<SubNode>)
    requires list.Valid() && list.edition.Repaired?
    modifies list, list.Created
    ensures list.Valid() && fresh(list.Created - old(list.Created))
    ensures var p0 := C.Pass(old(list.Nodes), old(list.Contents), 0, [], {});
            C.EnabledRun(p0, ops, topic) && Performs(p0, calls, ops, topic) && p == C.Run(p0, ops, topic)
    ensures p.nodes == list.Nodes && p.subs == list.Contents && p.pos == list.pos && p.returned == returned
    ensures var goal := C.Survivors(C.Matching(old(list.Nodes), old(list.Contents), topic), p.removed);
            && C.Survivors(returned, p.removed) <= goal
            && (NextMatch(list.Contents, list.pos, topic) == |list.Nodes| ==> C.Survivors(returned, p.removed) == goal)
  {
    ghost var p0 := C.Pass(list.Nodes, list.Contents, 0, [], {});
    list.Rewind();
    returned, ops, p := [], [], p0;
    for i := 0 to |calls|
      invariant fresh(list.Created - old(list.Created))
      invariant C.EnabledRun(p0, ops, topic) && Performs(p0, calls[..i], ops, topic) && p == C.Run(p0, ops, topic)
      invariant Tracks(list, p) && p.returned == returned
    {
      ghost var op;
      var found;
      found, op := Apply(list, calls[i], topic, p);
      if found != null {
        returned := returned + [found];
      }
      PassGrows(p0, calls, i, ops, op, topic);
      ops, p := ops + Listed(op), After(p, op, topic);
    }
    assert calls[..|calls|] == calls;
    C.PassSkipsAndRepeatsNothing(p0.nodes, p0.subs, ops, topic);
  }
}
