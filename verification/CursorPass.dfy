/** One pass of the cursor of subscriptions.c over a list that may change under it.
    The steps are those proved of SubscriptionList: its nodes and contents change by a prepend or
    by DropAt, its cursor by NextMatch and CursorAfterDrop. */
module CursorPass {
  import opened Base
  import opened Subscriptions

  datatype Op<N> = Next | Add(node: N, data: Subscription) | Remove(k: nat)

  /** The list (its nodes and what they hold) and its cursor; the nodes get_next has returned since
      the rewind; the nodes removed since then. */
  datatype Pass<N> = Pass(nodes: seq<N>, subs: seq<Subscription>, pos: nat, returned: seq<N>, removed: set<N>)

  function Matching<N>(nodes: seq<N>, subs: seq<Subscription>, topic: Str): seq<N>
    requires |nodes| == |subs|
  {
    if nodes == [] then []
    else if subs[0].topic == topic then [nodes[0]] + Matching(nodes[1..], subs[1..], topic)
    else Matching(nodes[1..], subs[1..], topic)
  }

  function Survivors<N(==)>(s: seq<N>, removed: set<N>): seq<N> {
    if s == [] then []
    else if s[0] in removed then Survivors(s[1..], removed)
    else [s[0]] + Survivors(s[1..], removed)
  }

  ghost predicate WellFormed<N>(p: Pass<N>) {
    && |p.nodes| == |p.subs| && p.pos <= |p.nodes|
    && Distinct(p.nodes)
    && (forall n :: n in p.nodes ==> n !in p.removed)
  }

  ghost predicate Enabled<N>(p: Pass<N>, op: Op<N>) {
    match op
    case Next => true
    case Add(n, _) => n !in p.nodes && n !in p.removed
    case Remove(k) => k < |p.nodes|
  }

  ghost function Step<N>(p: Pass<N>, op: Op<N>, topic: Str): Pass<N>
    requires WellFormed(p) && Enabled(p, op)
  {
    match op
    case Next =>
      var j := NextMatch(p.subs, p.pos, topic);
      if j < |p.nodes| then p.(pos := j + 1, returned := p.returned + [p.nodes[j]]) else p
    case Add(n, d) =>
      p.(nodes := [n] + p.nodes, subs := [d] + p.subs, pos := p.pos + 1)
    case Remove(k) =>
      p.(nodes := DropAt(p.nodes, k), subs := DropAt(p.subs, k),
         pos := CursorAfterDrop(p.pos, k), removed := p.removed + {p.nodes[k]})
  }

  lemma StepWellFormed<N>(p: Pass<N>, op: Op<N>, topic: Str)
    requires WellFormed(p) && Enabled(p, op)
    ensures WellFormed(Step(p, op, topic))
  {
    match op
    case Next =>
    case Add(n, _) =>
      DistinctMeans(p.nodes);
      DistinctMeans([n] + p.nodes);
    case Remove(k) =>
      DropAtDistinct(p.nodes, k);
  }

  ghost predicate EnabledRun<N>(p: Pass<N>, ops: seq<Op<N>>, topic: Str)
    decreases |ops|
  {
    ops == [] || (WellFormed(p) && Enabled(p, ops[0]) && EnabledRun(Step(p, ops[0], topic), ops[1..], topic))
  }

  ghost function Run<N>(p: Pass<N>, ops: seq<Op<N>>, topic: Str): Pass<N>
    requires EnabledRun(p, ops, topic)
    decreases |ops|
  {
    if ops == [] then p else Run(Step(p, ops[0], topic), ops[1..], topic)
  }

  /** The matches the cursor has not passed yet. */
  function Pending<N>(p: Pass<N>, topic: Str): seq<N>
    requires |p.nodes| == |p.subs| && p.pos <= |p.nodes|
  {
    Matching(p.nodes[p.pos..], p.subs[p.pos..], topic)
  }

  /** What the pass has given and what it still owes make up the surviving matches (goal is the
      list of matches it started with), in their order. */
  ghost predicate OnCourse<N>(goal: seq<N>, p: Pass<N>, topic: Str) {
    && WellFormed(p)
    && Survivors(goal, p.removed) == Survivors(p.returned, p.removed) + Pending(p, topic)
  }

  lemma {:induction false} MatchingConcat<N>(a: seq<N>, b: seq<N>, da: seq<Subscription>, db: seq<Subscription>,
                                             topic: Str)
    requires |a| == |da| && |b| == |db|
    ensures Matching(a + b, da + db, topic) == Matching(a, da, topic) + Matching(b, db, topic)
  {
    if a == [] {
      assert a + b == b && da + db == db;
    } else {
      assert (a + b)[1..] == a[1..] + b && (da + db)[1..] == da[1..] + db;
      MatchingConcat(a[1..], b, da[1..], db, topic);
    }
  }

  lemma {:induction false} SurvivorsConcat<N>(a: seq<N>, b: seq<N>, removed: set<N>)
    ensures Survivors(a + b, removed) == Survivors(a, removed) + Survivors(b, removed)
  {
    if a == [] {
      assert a + b == b;
    } else {
      assert (a + b)[1..] == a[1..] + b;
      SurvivorsConcat(a[1..], b, removed);
    }
  }

  lemma {:induction false} SurvivorsCompose<N>(s: seq<N>, removed: set<N>, x: N)
    ensures Survivors(s, removed + {x}) == Survivors(Survivors(s, removed), {x})
  {
    if s != [] {
      SurvivorsCompose(s[1..], removed, x);
    }
  }

  lemma {:induction false} SurvivorsAll<N>(s: seq<N>, removed: set<N>)
    requires forall n :: n in s ==> n !in removed
    ensures Survivors(s, removed) == s
  {
    if s != [] {
      SurvivorsAll(s[1..], removed);
    }
  }

  lemma {:induction false} MatchingWithin<N>(nodes: seq<N>, subs: seq<Subscription>, topic: Str)
    requires |nodes| == |subs|
    ensures forall n :: n in Matching(nodes, subs, topic) ==> n in nodes
  {
    if nodes != [] {
      MatchingWithin(nodes[1..], subs[1..], topic);
    }
  }

  /** get_next takes the first pending match. */
  lemma {:induction false} PendingAfterNext<N>(nodes: seq<N>, subs: seq<Subscription>, pos: nat, topic: Str)
    requires |nodes| == |subs| && pos <= |nodes|
    ensures var j := NextMatch(subs, pos, topic);
            Matching(nodes[pos..], subs[pos..], topic)
            == if j < |nodes| then [nodes[j]] + Matching(nodes[j + 1..], subs[j + 1..], topic) else []
    decreases |nodes| - pos
  {
    if pos < |nodes| {
      assert nodes[pos..][1..] == nodes[pos + 1..] && subs[pos..][1..] == subs[pos + 1..];
      if subs[pos].topic != topic {
        PendingAfterNext(nodes, subs, pos + 1, topic);
      }
    }
  }

  /** A node outside the list takes nothing out of the list's matches. */
  lemma MatchingWithout<N>(nodes: seq<N>, subs: seq<Subscription>, topic: Str, x: N)
    requires |nodes| == |subs| && x !in nodes
    ensures Survivors(Matching(nodes, subs, topic), {x}) == Matching(nodes, subs, topic)
  {
    MatchingWithin(nodes, subs, topic);
    SurvivorsAll(Matching(nodes, subs, topic), {x});
  }

  /** Taking an entry out of the middle of a list takes just its node out of the list's matches. */
  lemma DropMiddle<N>(a: seq<N>, x: N, b: seq<N>, da: seq<Subscription>, d: Subscription, db: seq<Subscription>,
                      topic: Str)
    requires |a| == |da| && |b| == |db| && x !in a && x !in b
    ensures Matching(a + b, da + db, topic) == Survivors(Matching(a + ([x] + b), da + ([d] + db), topic), {x})
  {
    MatchingConcat(a, b, da, db, topic);
    MatchingConcat(a, [x] + b, da, [d] + db, topic);
    SurvivorsConcat(Matching(a, da, topic), Matching([x] + b, [d] + db, topic), {x});
    MatchingWithout(a, da, topic, x);
    MatchingWithout(b, db, topic, x);
    assert ([x] + b)[1..] == b && ([d] + db)[1..] == db;
    if d.topic == topic {
      SurvivorsConcat([x], Matching(b, db, topic), {x});
      assert [x][1..] == [];
    }
  }

  lemma PendingAfterDropAhead<N>(nodes: seq<N>, subs: seq<Subscription>, pos: nat, k: nat, topic: Str)
    requires |nodes| == |subs| && Distinct(nodes) && pos <= k < |nodes|
    ensures Matching(DropAt(nodes, k)[pos..], DropAt(subs, k)[pos..], topic)
            == Survivors(Matching(nodes[pos..], subs[pos..], topic), {nodes[k]})
  {
    DistinctMeans(nodes);
    var a, b, da, db := nodes[pos..k], nodes[k + 1..], subs[pos..k], subs[k + 1..];
    assert nodes[pos..] == a + ([nodes[k]] + b);
    assert subs[pos..] == da + ([subs[k]] + db);
    assert DropAt(nodes, k)[pos..] == a + b;
    assert DropAt(subs, k)[pos..] == da + db;
    DropMiddle(a, nodes[k], b, da, subs[k], db, topic);
  }

  /** A removal, before or after the cursor or under it, takes just its node out of what is pending. */
  lemma PendingAfterDrop<N>(p: Pass<N>, k: nat, topic: Str)
    requires WellFormed(p) && k < |p.nodes|
    ensures WellFormed(Step(p, Remove(k), topic))
    ensures Pending(Step(p, Remove(k), topic), topic) == Survivors(Pending(p, topic), {p.nodes[k]})
  {
    StepWellFormed(p, Remove(k), topic);
    if k < p.pos {
      DistinctMeans(p.nodes);
      assert DropAt(p.nodes, k)[p.pos - 1..] == p.nodes[p.pos..];
      assert DropAt(p.subs, k)[p.pos - 1..] == p.subs[p.pos..];
      MatchingWithout(p.nodes[p.pos..], p.subs[p.pos..], topic, p.nodes[k]);
    } else {
      PendingAfterDropAhead(p.nodes, p.subs, p.pos, k, topic);
    }
  }

  lemma NextStaysOnCourse<N>(goal: seq<N>, p: Pass<N>, topic: Str)
    requires OnCourse(goal, p, topic)
    ensures OnCourse(goal, Step(p, Next, topic), topic)
  {
    PendingAfterNext(p.nodes, p.subs, p.pos, topic);
    var j := NextMatch(p.subs, p.pos, topic);
    if j < |p.nodes| {
      assert p.nodes[j] in p.nodes;
      SurvivorsAll([p.nodes[j]], p.removed);
      SurvivorsConcat(p.returned, [p.nodes[j]], p.removed);
    }
  }

  lemma RemoveStaysOnCourse<N>(goal: seq<N>, p: Pass<N>, k: nat, topic: Str)
    requires OnCourse(goal, p, topic) && k < |p.nodes|
    ensures OnCourse(goal, Step(p, Remove(k), topic), topic)
  {
    var x := p.nodes[k];
    PendingAfterDrop(p, k, topic);
    SurvivorsCompose(goal, p.removed, x);
    SurvivorsCompose(p.returned, p.removed, x);
    SurvivorsConcat(Survivors(p.returned, p.removed), Pending(p, topic), {x});
  }

  lemma StepStaysOnCourse<N>(goal: seq<N>, p: Pass<N>, op: Op<N>, topic: Str)
    requires OnCourse(goal, p, topic) && Enabled(p, op)
    ensures OnCourse(goal, Step(p, op, topic), topic)
  {
    match op
    case Next =>
      NextStaysOnCourse(goal, p, topic);
    case Add(n, d) =>
      StepWellFormed(p, op, topic);
      assert ([n] + p.nodes)[p.pos + 1..] == p.nodes[p.pos..];
      assert ([d] + p.subs)[p.pos + 1..] == p.subs[p.pos..];
    case Remove(k) =>
      RemoveStaysOnCourse(goal, p, k, topic);
  }

  lemma {:induction false} RunStaysOnCourse<N>(goal: seq<N>, p: Pass<N>, ops: seq<Op<N>>, topic: Str)
    requires OnCourse(goal, p, topic) && EnabledRun(p, ops, topic)
    ensures OnCourse(goal, Run(p, ops, topic), topic)
    decreases |ops|
  {
    if ops != [] {
      StepStaysOnCourse(goal, p, ops[0], topic);
      RunStaysOnCourse(goal, Step(p, ops[0], topic), ops[1..], topic);
    }
  }

  /** Whatever is added and removed between the calls of get_next, the cursor stays in the list, the
      pass returns the surviving matches of the list it started on in list order, each once, and
      nothing added on the way; once get_next returns NULL it has returned all of them. */
  lemma PassSkipsAndRepeatsNothing<N>(nodes: seq<N>, subs: seq<Subscription>, ops: seq<Op<N>>, topic: Str)
    requires |nodes| == |subs| && Distinct(nodes)
    requires EnabledRun(Pass(nodes, subs, 0, [], {}), ops, topic)
    ensures var p := Run(Pass(nodes, subs, 0, [], {}), ops, topic);
            && WellFormed(p)
            && Survivors(p.returned, p.removed) <= Survivors(Matching(nodes, subs, topic), p.removed)
            && (NextMatch(p.subs, p.pos, topic) == |p.nodes| ==>
                  Survivors(p.returned, p.removed) == Survivors(Matching(nodes, subs, topic), p.removed))
  {
    var p0 := Pass(nodes, subs, 0, [], {});
    assert nodes[0..] == nodes && subs[0..] == subs;
    SurvivorsAll(Matching(nodes, subs, topic), {});
    RunStaysOnCourse(Matching(nodes, subs, topic), p0, ops, topic);
    var p := Run(p0, ops, topic);
    PendingAfterNext(p.nodes, p.subs, p.pos, topic);
  }

  /** n calls of get_next with nothing in between. */
  function Calls<N>(n: nat): seq<Op<N>> {
    if n == 0 then [] else [Next] + Calls(n - 1)
  }

  /** A call of get_next moves the first pending match, if any, to the returned ones. */
  lemma NextMovesOne<N>(p: Pass<N>, topic: Str)
    requires WellFormed(p)
    ensures var p' := Step(p, Next, topic);
            && WellFormed(p') && p'.subs == p.subs
            && p'.returned + Pending(p', topic) == p.returned + Pending(p, topic)
            && (if NextMatch(p.subs, p.pos, topic) == |p.subs| then Pending(p, topic) == []
                else |Pending(p, topic)| == 1 + |Pending(p', topic)|)
  {
    PendingAfterNext(p.nodes, p.subs, p.pos, topic);
  }

  /** Undisturbed, as many calls as there are pending matches return exactly those, in list order;
      the next call returns NULL. */
  lemma {:induction false} UndisturbedPass<N>(p: Pass<N>, n: nat, topic: Str)
    requires WellFormed(p) && n == |Pending(p, topic)|
    ensures EnabledRun(p, Calls(n), topic)
    ensures var q := Run(p, Calls(n), topic);
            && q.returned == p.returned + Pending(p, topic)
            && q.subs == p.subs && q.pos <= |p.subs| && NextMatch(q.subs, q.pos, topic) == |q.subs|
    decreases n
  {
    NextMovesOne(p, topic);
    if n != 0 {
      assert Calls<N>(n)[1..] == Calls(n - 1);
      var p' := Step(p, Next, topic);
      UndisturbedPass(p', n - 1, topic);
    }
  }
}
