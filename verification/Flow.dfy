/**
 Does the value one capture names reach what another capture holds, inside one declaration? The walk
 follows the steps the language arm declared and links endpoints that share their text.
 */
module Flow {
  import opened Bytes
  import opened Outcomes

  datatype Span = Span(start: nat, end: nat)

  /** One declared step: the sources flow into the target. An arm may leave either out. */
  datatype FlowStep = FlowStep(target: Option<Span>, sources: seq<Option<Span>>)

  /** A capture's span and the spans of a sequence capture's elements. */
  datatype Captured = Captured(span: Span, children: seq<Span>)

  predicate Inside(inner: Span, outer: Span) {
    outer.start <= inner.start && inner.end <= outer.end
  }

  function Text(src: bytes, s: Span): bytes {
    Slice(src, s.start, s.end)
  }

  // ----- the meaning -----

  predicate IsEndpoint(steps: seq<FlowStep>, s: Span) {
    exists i | 0 <= i < |steps| :: steps[i].target == Some(s) || Some(s) in steps[i].sources
  }

  predicate Declared(steps: seq<FlowStep>, a: Span, b: Span) {
    exists i | 0 <= i < |steps| :: steps[i].target == Some(b) && Some(a) in steps[i].sources
  }

  predicate SameText(steps: seq<FlowStep>, src: bytes, a: Span, b: Span) {
    IsEndpoint(steps, a) && IsEndpoint(steps, b) && Text(src, a) == Text(src, b)
  }

  predicate Edge(steps: seq<FlowStep>, src: bytes, a: Span, b: Span) {
    Declared(steps, a, b) || SameText(steps, src, a, b)
  }

  /** The values a `from` capture names: each element of a sequence, otherwise the capture itself. */
  function Values(from: Captured): seq<Span> {
    if from.children == [] then [from.span] else from.children
  }

  /** A step consumed an operand lying inside the value. */
  predicate Consumes(steps: seq<FlowStep>, v: Span, target: Span) {
    exists i | 0 <= i < |steps| :: steps[i].target == Some(target) && HasOperandIn(steps[i], v)
  }

  predicate HasOperandIn(st: FlowStep, v: Span) {
    exists j | 0 <= j < |st.sources| :: st.sources[j].Some? && Inside(st.sources[j].value, v)
  }

  /** Where the walk may start: a value that is an endpoint, or what consumed a composite value. */
  predicate IsSeed(steps: seq<FlowStep>, from: Captured, s: Span) {
    exists v | v in Values(from) :: if IsEndpoint(steps, v) then s == v else Consumes(steps, v, s)
  }

  /** A composite value already lies inside the destination. */
  predicate AlreadyThere(steps: seq<FlowStep>, from: Captured, to: Captured) {
    exists v | v in Values(from) :: !IsEndpoint(steps, v) && Inside(v, to.span)
  }

  predicate Binds(to: Captured, toNode: Option<Span>, s: Span) {
    (toNode == Some(s) && to.children == []) || Inside(s, to.span)
  }

  /** A walk along edges from a seed. */
  ghost predicate IsWalk(steps: seq<FlowStep>, src: bytes, from: Captured, walk: seq<Span>) {
    && walk != [] && IsSeed(steps, from, walk[0])
    && forall i | 0 < i < |walk| :: Edge(steps, src, walk[i - 1], walk[i])
  }

  ghost predicate Reached(steps: seq<FlowStep>, src: bytes, from: Captured, s: Span) {
    exists walk :: IsWalk(steps, src, from, walk) && walk[|walk| - 1] == s
  }

  ghost predicate Flows(steps: seq<FlowStep>, src: bytes, from: Captured, to: Captured, toNode: Option<Span>) {
    && steps != []
    && (AlreadyThere(steps, from, to) || exists s :: Reached(steps, src, from, s) && Binds(to, toNode, s))
  }

  // ----- the walk -----

  datatype Graph = Graph(all: seq<Span>, byText: map<bytes, seq<Span>>, adj: map<Span, seq<Span>>)

  function Listed<K>(m: map<K, seq<Span>>, k: K): seq<Span> {
    if k in m then m[k] else []
  }

  ghost predicate Indexes(g: Graph, steps: seq<FlowStep>, src: bytes) {
    && (forall s :: s in g.all <==> IsEndpoint(steps, s))
    && (forall a, b :: b in Listed(g.byText, Text(src, a)) <==> IsEndpoint(steps, b) && Text(src, a) == Text(src, b))
    && (forall a, b :: b in Listed(g.adj, a) <==> Declared(steps, a, b))
  }

  method NoteAll(steps: seq<FlowStep>) returns (all: seq<Span>)
    ensures forall s :: s in all <==> IsEndpoint(steps, s)
  {
    all := [];
    for i := 0 to |steps|
      invariant forall s :: s in all <==> IsEndpoint(steps[..i], s)
    {
      var st := steps[i];
      ghost var before := all;
      if st.target.Some? {
        all := all + [st.target.value];
      }
      for j := 0 to |st.sources|
        invariant forall s :: s in all <==> s in before || st.target == Some(s) || Some(s) in st.sources[..j]
      {
        hide IsEndpoint;
        if st.sources[j].Some? {
          all := all + [st.sources[j].value];
        }
        assert st.sources[..j + 1] == st.sources[..j] + [st.sources[j]];
      }
      assert st.sources[..|st.sources|] == st.sources;
      EndpointStep(steps, i);
    }
    assert steps[..|steps|] == steps;
  }

  lemma EndpointStep(steps: seq<FlowStep>, i: nat)
    requires i < |steps|
    ensures forall s :: IsEndpoint(steps[..i + 1], s)
                        <==> IsEndpoint(steps[..i], s) || steps[i].target == Some(s) || Some(s) in steps[i].sources
  {
    forall s ensures IsEndpoint(steps[..i + 1], s)
                     <==> IsEndpoint(steps[..i], s) || steps[i].target == Some(s) || Some(s) in steps[i].sources {
      assert steps[..i + 1][i] == steps[i];
      assert forall k | 0 <= k < i :: steps[..i + 1][k] == steps[..i][k];
    }
  }

  lemma DeclaredStep(steps: seq<FlowStep>, i: nat)
    requires i < |steps|
    ensures forall a, b :: Declared(steps[..i + 1], a, b)
                           <==> Declared(steps[..i], a, b) || (steps[i].target == Some(b) && Some(a) in steps[i].sources)
  {
    forall a, b ensures Declared(steps[..i + 1], a, b)
                        <==> Declared(steps[..i], a, b) || (steps[i].target == Some(b) && Some(a) in steps[i].sources) {
      assert steps[..i + 1][i] == steps[i];
      assert forall k | 0 <= k < i :: steps[..i + 1][k] == steps[..i][k];
    }
  }

  lemma AddedTo<K>(m: map<K, seq<Span>>, k: K, s: Span)
    ensures forall k' :: Listed(m[k := Listed(m, k) + [s]], k') == Listed(m, k') + if k' == k then [s] else []
  {
  }

  ghost predicate Bucketed(byText: map<bytes, seq<Span>>, src: bytes, spans: seq<Span>) {
    forall t, s :: s in Listed(byText, t) <==> s in spans && t == Text(src, s)
  }

  lemma BucketStep(byText: map<bytes, seq<Span>>, src: bytes, spans: seq<Span>, s: Span)
    requires Bucketed(byText, src, spans)
    ensures Bucketed(byText[Text(src, s) := Listed(byText, Text(src, s)) + [s]], src, spans + [s])
  {
    var k := Text(src, s);
    var byText' := byText[k := Listed(byText, k) + [s]];
    forall t, x ensures x in Listed(byText', t) <==> x in spans + [s] && t == Text(src, x) {
      if t == k {
        assert Listed(byText', t) == Listed(byText, t) + [s];
      } else {
        assert Listed(byText', t) == Listed(byText, t);
      }
    }
  }

  method Bucket(all: seq<Span>, src: bytes) returns (byText: map<bytes, seq<Span>>)
    ensures Bucketed(byText, src, all)
  {
    byText := map[];
    for i := 0 to |all|
      invariant Bucketed(byText, src, all[..i])
    {
      hide Bucketed;
      var t := Text(src, all[i]);
      assert all[..i + 1] == all[..i] + [all[i]];
      BucketStep(byText, src, all[..i], all[i]);
      byText := byText[t := Listed(byText, t) + [all[i]]];
    }
    assert all[..|all|] == all;
  }

  method Adjacency(steps: seq<FlowStep>) returns (adj: map<Span, seq<Span>>)
    ensures forall a, b :: b in Listed(adj, a) <==> Declared(steps, a, b)
  {
    adj := map[];
    for i := 0 to |steps|
      invariant forall a, b :: b in Listed(adj, a) <==> Declared(steps[..i], a, b)
    {
      hide Declared, Listed;
      var st := steps[i];
      DeclaredStep(steps, i);
      if st.target.None? {
        continue;
      }
      ghost var before := adj;
      for j := 0 to |st.sources|
        invariant forall a, b :: b in Listed(adj, a)
                                 <==> b in Listed(before, a) || (b == st.target.value && Some(a) in st.sources[..j])
      {
        assert st.sources[..j + 1] == st.sources[..j] + [st.sources[j]];
        if st.sources[j].Some? {
          var s := st.sources[j].value;
          AddedTo(adj, s, st.target.value);
          adj := adj[s := Listed(adj, s) + [st.target.value]];
        }
      }
      assert st.sources[..|st.sources|] == st.sources;
    }
    assert steps[..|steps|] == steps;
  }

  /** Every endpoint once noted, bucketed by text, and the declared adjacency. */
  method IndexFlowGraph(steps: seq<FlowStep>, src: bytes) returns (g: Graph)
    ensures Indexes(g, steps, src)
  {
    var all := NoteAll(steps);
    var byText := Bucket(all, src);
    var adj := Adjacency(steps);
    hide IsEndpoint, Declared, Text, Listed;
    g := Graph(all, byText, adj);
  }

  /** The targets of every step that consumed an operand inside the value. */
  method SpanConsumers(steps: seq<FlowStep>, v: Span) returns (out: seq<Span>)
    ensures forall t :: t in out <==> Consumes(steps, v, t)
  {
    out := [];
    for i := 0 to |steps|
      invariant forall t :: t in out <==> Consumes(steps[..i], v, t)
    {
      var st := steps[i];
      ConsumesStep(steps, i, v);
      if st.target.None? {
        continue;
      }
      var found := false;
      for j := 0 to |st.sources|
        invariant !found && forall k | 0 <= k < j :: st.sources[k].None? || !Inside(st.sources[k].value, v)
      {
        hide Consumes;
        if st.sources[j].Some? && Inside(st.sources[j].value, v) {
          found := true;
          assert HasOperandIn(st, v);
          break;
        }
      }
      if found {
        out := out + [st.target.value];
      }
    }
    assert steps[..|steps|] == steps;
  }

  lemma ConsumesStep(steps: seq<FlowStep>, i: nat, v: Span)
    requires i < |steps|
    ensures forall t :: Consumes(steps[..i + 1], v, t)
                        <==> Consumes(steps[..i], v, t) || (steps[i].target == Some(t) && HasOperandIn(steps[i], v))
  {
    forall t ensures Consumes(steps[..i + 1], v, t)
                     <==> Consumes(steps[..i], v, t) || (steps[i].target == Some(t) && HasOperandIn(steps[i], v)) {
      assert steps[..i + 1][i] == steps[i];
      assert forall k | 0 <= k < i :: steps[..i + 1][k] == steps[..i][k];
    }
  }

  predicate SeedOf(steps: seq<FlowStep>, v: Span, s: Span) {
    if IsEndpoint(steps, v) then s == v else Consumes(steps, v, s)
  }

  /** What the walk starts from, or that it need not start. */
  method SeedFlowQueue(g: Graph, steps: seq<FlowStep>, src: bytes, from: Captured, to: Captured)
    returns (queue: seq<Span>, satisfied: bool)
    requires Indexes(g, steps, src)
    ensures satisfied <==> AlreadyThere(steps, from, to)
    ensures !satisfied ==> forall s :: s in queue <==> IsSeed(steps, from, s)
  {
    hide IsEndpoint, Consumes, Declared, Text, Listed;
    var values := Values(from);
    queue := [];
    for i := 0 to |values|
      invariant forall k | 0 <= k < i :: IsEndpoint(steps, values[k]) || !Inside(values[k], to.span)
      invariant forall s :: s in queue <==> exists k | 0 <= k < i :: SeedOf(steps, values[k], s)
    {
      hide SeedOf;
      var v := values[i];
      ghost var before := queue;
      var bound := false;
      for j := 0 to |g.all|
        invariant bound <==> v in g.all[..j]
        invariant forall s :: s in queue <==> s in before || (bound && s == v)
      {
        assert g.all[..j + 1] == g.all[..j] + [g.all[j]];
        if g.all[j] == v {
          queue := queue + [v];
          bound := true;
        }
      }
      assert g.all[..|g.all|] == g.all;
      SeedsOfOne(steps, v);
      if bound {
        continue;
      }
      if Inside(v, to.span) {
        assert v in Values(from);
        return [], true;
      }
      var more := SpanConsumers(steps, v);
      queue := queue + more;
    }
    SeedsOfAll(steps, from);
    return queue, false;
  }

  lemma SeedsOfOne(steps: seq<FlowStep>, v: Span)
    ensures forall s :: SeedOf(steps, v, s) <==> if IsEndpoint(steps, v) then s == v else Consumes(steps, v, s)
  {
    hide IsEndpoint, Consumes;
  }

  lemma SeedsOfAll(steps: seq<FlowStep>, from: Captured)
    ensures forall s :: IsSeed(steps, from, s) <==> exists k | 0 <= k < |Values(from)| :: SeedOf(steps, Values(from)[k], s)
  {
    hide IsEndpoint, Consumes, Values;
    forall s ensures IsSeed(steps, from, s) <==> exists k | 0 <= k < |Values(from)| :: SeedOf(steps, Values(from)[k], s) {
      if IsSeed(steps, from, s) {
        var v :| v in Values(from) && if IsEndpoint(steps, v) then s == v else Consumes(steps, v, s);
        var k :| 0 <= k < |Values(from)| && Values(from)[k] == v;
        assert SeedOf(steps, Values(from)[k], s);
      }
    }
  }

  lemma SeedIsEndpoint(steps: seq<FlowStep>, from: Captured, s: Span)
    requires IsSeed(steps, from, s)
    ensures IsEndpoint(steps, s)
  {
    var v :| v in Values(from) && if IsEndpoint(steps, v) then s == v else Consumes(steps, v, s);
    if !IsEndpoint(steps, v) {
      var i :| 0 <= i < |steps| && steps[i].target == Some(s) && HasOperandIn(steps[i], v);
    }
  }

  lemma ReachedSeed(steps: seq<FlowStep>, src: bytes, from: Captured, s: Span)
    requires IsSeed(steps, from, s)
    ensures Reached(steps, src, from, s)
  {
    assert IsWalk(steps, src, from, [s]);
  }

  lemma ReachedEdge(steps: seq<FlowStep>, src: bytes, from: Captured, a: Span, b: Span)
    requires Reached(steps, src, from, a) && Edge(steps, src, a, b)
    ensures Reached(steps, src, from, b)
  {
    hide IsSeed, Edge;
    var walk :| IsWalk(steps, src, from, walk) && walk[|walk| - 1] == a;
    assert IsWalk(steps, src, from, walk + [b]);
    assert (walk + [b])[|walk|] == b;
  }

  /** A set that holds the seeds and is closed under edges holds everything reached. */
  lemma {:induction false} ReachedStaysInside(steps: seq<FlowStep>, src: bytes, from: Captured, walk: seq<Span>,
          closed: set<Span>)
    requires IsWalk(steps, src, from, walk)
    requires forall s :: IsSeed(steps, from, s) ==> s in closed
    requires forall a, b :: a in closed && Edge(steps, src, a, b) ==> b in closed
    ensures walk[|walk| - 1] in closed
    decreases |walk|
  {
    hide IsSeed, Edge;
    if |walk| > 1 {
      var n := |walk| - 1;
      ReachedStaysInside(steps, src, from, walk[..n], closed);
      assert walk[..n][n - 1] == walk[n - 1];
    }
  }

  /** The spans a walk has put in its queue so far, each once. */
  ghost predicate Queued(steps: seq<FlowStep>, src: bytes, from: Captured, done: seq<Span>, queue: seq<Span>,
          seen: set<Span>) {
    && (forall s :: s in seen <==> s in done || s in queue)
    && (forall s | s in seen :: Reached(steps, src, from, s) && IsEndpoint(steps, s))
    && Distinct(done + queue)
  }

  ghost predicate Distinct(spans: seq<Span>) {
    forall i, j | 0 <= i < j < |spans| :: spans[i] != spans[j]
  }

  method Enqueue(steps: seq<FlowStep>, src: bytes, from: Captured, ghost done: seq<Span>, queue: seq<Span>,
          seen: set<Span>,
          more: seq<Span>)
    returns (queue': seq<Span>, seen': set<Span>)
    requires Queued(steps, src, from, done, queue, seen)
    requires forall s | s in more :: Reached(steps, src, from, s) && IsEndpoint(steps, s)
    ensures Queued(steps, src, from, done, queue', seen')
    ensures seen <= seen' && forall s | s in more :: s in seen'
  {
    hide Reached, IsEndpoint;
    queue', seen' := queue, seen;
    for i := 0 to |more|
      invariant Queued(steps, src, from, done, queue', seen')
      invariant seen <= seen' && forall k | 0 <= k < i :: more[k] in seen'
    {
      if more[i] !in seen' {
        NewlyQueued(steps, src, from, done, queue', seen', more[i]);
        hide Queued;
        seen' := seen' + {more[i]};
        queue' := queue' + [more[i]];
      }
    }
  }

  lemma NewlyQueued(steps: seq<FlowStep>, src: bytes, from: Captured, done: seq<Span>, queue: seq<Span>,
          seen: set<Span>, s: Span)
    requires Queued(steps, src, from, done, queue, seen) && s !in seen
    requires Reached(steps, src, from, s) && IsEndpoint(steps, s)
    ensures Queued(steps, src, from, done, queue + [s], seen + {s})
  {
    hide Reached, IsEndpoint;
    assert done + (queue + [s]) == (done + queue) + [s];
    assert forall i | 0 <= i < |done + queue| :: (done + queue)[i] in seen by {
      forall i | 0 <= i < |done + queue| ensures (done + queue)[i] in seen {
        if i < |done| {
          assert (done + queue)[i] == done[i];
        } else {
          assert (done + queue)[i] == queue[i - |done|];
        }
      }
    }
  }

  /** Everything dequeued so far is away from the destination, and its neighbours are queued. */
  ghost predicate Expanded(steps: seq<FlowStep>, src: bytes, to: Captured, toNode: Option<Span>, done: seq<Span>,
          seen: set<Span>) {
    forall s | s in done :: !Binds(to, toNode, s) && forall b :: Edge(steps, src, s, b) ==> b in seen
  }

  lemma Dequeued(steps: seq<FlowStep>, src: bytes, from: Captured, done: seq<Span>, queue: seq<Span>, seen: set<Span>)
    requires Queued(steps, src, from, done, queue, seen) && queue != []
    ensures Queued(steps, src, from, done + [queue[0]], queue[1..], seen)
    ensures queue[0] in seen && queue[0] !in done
  {
    hide Reached, IsEndpoint;
    var cur := queue[0];
    assert queue == [cur] + queue[1..];
    assert (done + [cur]) + queue[1..] == done + queue;
    assert (done + queue)[|done|] == cur;
    forall i | 0 <= i < |done| ensures done[i] != cur {
      assert (done + queue)[i] == done[i];
    }
  }

  /** When the queue runs dry, nothing reached binds the destination. */
  lemma DryMeansUnreached(steps: seq<FlowStep>, src: bytes, from: Captured, to: Captured, toNode: Option<Span>,
          done: seq<Span>, seen: set<Span>)
    requires Queued(steps, src, from, done, [], seen) && Expanded(steps, src, to, toNode, done, seen)
    requires forall s :: IsSeed(steps, from, s) ==> s in seen
    ensures forall s :: Reached(steps, src, from, s) ==> !Binds(to, toNode, s)
  {
    hide IsEndpoint, Edge, IsSeed;
    forall s | Reached(steps, src, from, s) ensures !Binds(to, toNode, s) {
      var walk :| IsWalk(steps, src, from, walk) && walk[|walk| - 1] == s;
      hide IsWalk, Reached;
      ReachedStaysInside(steps, src, from, walk, seen);
    }
  }

  method Neighbours(g: Graph, steps: seq<FlowStep>, src: bytes, cur: Span)
    returns (declared: seq<Span>, same: seq<Span>)
    requires Indexes(g, steps, src) && IsEndpoint(steps, cur)
    ensures forall b :: Edge(steps, src, cur, b) <==> b in declared || b in same
    ensures forall b | b in declared || b in same :: IsEndpoint(steps, b)
  {
    declared, same := Listed(g.adj, cur), Listed(g.byText, Text(src, cur));
    assert forall b :: Declared(steps, cur, b) ==> IsEndpoint(steps, b);
    hide IsEndpoint, Declared, Text, Listed;
  }

  /** Queues what the span just dequeued leads to, along both edge classes. */
  method Visit(g: Graph, steps: seq<FlowStep>, src: bytes, from: Captured, ghost done: seq<Span>, queue: seq<Span>,
          seen: set<Span>, cur: Span)
    returns (queue': seq<Span>, seen': set<Span>)
    requires Indexes(g, steps, src) && Queued(steps, src, from, done, queue, seen) && cur in seen
    ensures Queued(steps, src, from, done, queue', seen')
    ensures seen <= seen' && forall b :: Edge(steps, src, cur, b) ==> b in seen'
  {
    assert IsEndpoint(steps, cur) && Reached(steps, src, from, cur);
    hide IsEndpoint, Edge, Reached, Indexes, Queued;
    var declared, same := Neighbours(g, steps, src, cur);
    forall b | b in declared || b in same ensures Reached(steps, src, from, b) {
      ReachedEdge(steps, src, from, cur, b);
    }
    queue', seen' := Enqueue(steps, src, from, done, queue, seen, declared);
    queue', seen' := Enqueue(steps, src, from, done, queue', seen', same);
  }

  /** Breadth-first over both edge classes; `order` lists the spans in the order they left the queue. */
  method FlowReaches(steps: seq<FlowStep>, src: bytes, from: Captured, to: Captured, toNode: Option<Span>)
    returns (r: bool, ghost order: seq<Span>)
    ensures r == Flows(steps, src, from, to, toNode)
    ensures Distinct(order) && forall s | s in order :: IsEndpoint(steps, s)
  {
    order := [];
    if steps == [] {
      return false, order;
    }
    var g := IndexFlowGraph(steps, src);
    var seeds, satisfied := SeedFlowQueue(g, steps, src, from, to);
    if satisfied {
      return true, order;
    }
    hide IsEndpoint, Edge, IsSeed, Reached, Indexes, AlreadyThere;
    forall s | s in seeds ensures Reached(steps, src, from, s) && IsEndpoint(steps, s) {
      SeedIsEndpoint(steps, from, s);
      ReachedSeed(steps, src, from, s);
    }
    var queue: seq<Span>, seen: set<Span> := [], {};
    queue, seen := Enqueue(steps, src, from, order, queue, seen, seeds);
    r, order := Drain(g, steps, src, from, to, toNode, queue, seen);
  }

  ghost function Elements(spans: seq<Span>): set<Span> {
    set s | s in spans
  }

  lemma FewerLeft(all: seq<Span>, done: seq<Span>, cur: Span)
    requires cur in all && cur !in done
    ensures Elements(all) - Elements(done + [cur]) < Elements(all) - Elements(done)
  {
    assert cur in Elements(all) - Elements(done) && cur !in Elements(all) - Elements(done + [cur]);
  }

  method Drain(g: Graph, steps: seq<FlowStep>, src: bytes, from: Captured, to: Captured, toNode: Option<Span>,
          queue0: seq<Span>, seen0: set<Span>)
    returns (r: bool, ghost order: seq<Span>)
    requires Indexes(g, steps, src) && Queued(steps, src, from, [], queue0, seen0)
    requires forall s :: IsSeed(steps, from, s) ==> s in seen0
    ensures r <==> exists s :: Reached(steps, src, from, s) && Binds(to, toNode, s)
    ensures Distinct(order) && forall s | s in order :: IsEndpoint(steps, s)
  {
    hide *;
    var queue, seen := queue0, seen0;
    order := [];
    NothingExpanded(steps, src, to, toNode, seen);
    while queue != []
      invariant Queued(steps, src, from, order, queue, seen) && seen0 <= seen
      invariant Expanded(steps, src, to, toNode, order, seen)
      decreases Elements(g.all) - Elements(order)
    {
      var cur := queue[0];
      ghost var before, earlier := order, seen;
      Dequeued(steps, src, from, order, queue, seen);
      AllEndpoints(g, steps, src, from, order, queue, seen);
      queue, order := queue[1..], order + [cur];
      if Binds(to, toNode, cur) {
        QueuedDistinct(steps, src, from, order, queue, seen);
        QueuedReached(steps, src, from, order, queue, seen, cur);
        return true, order;
      }
      queue, seen := Visit(g, steps, src, from, order, queue, seen, cur);
      ExpandedStep(steps, src, to, toNode, before, cur, earlier, seen);
      FewerLeft(g.all, before, cur);
    }
    DryMeansUnreached(steps, src, from, to, toNode, order, seen);
    QueuedDistinct(steps, src, from, order, queue, seen);
    return false, order;
  }

  lemma NothingExpanded(steps: seq<FlowStep>, src: bytes, to: Captured, toNode: Option<Span>, seen: set<Span>)
    ensures Expanded(steps, src, to, toNode, [], seen)
  {
  }

  lemma QueuedReached(steps: seq<FlowStep>, src: bytes, from: Captured, done: seq<Span>, queue: seq<Span>,
          seen: set<Span>, s: Span)
    requires Queued(steps, src, from, done, queue, seen) && s in seen
    ensures Reached(steps, src, from, s)
  {
  }

  lemma AllEndpoints(g: Graph, steps: seq<FlowStep>, src: bytes, from: Captured, done: seq<Span>, queue: seq<Span>,
          seen: set<Span>)
    requires Indexes(g, steps, src) && Queued(steps, src, from, done, queue, seen)
    ensures forall s | s in seen :: s in g.all
  {
    hide IsEndpoint, Reached;
  }

  lemma QueuedDistinct(steps: seq<FlowStep>, src: bytes, from: Captured, done: seq<Span>, queue: seq<Span>,
          seen: set<Span>)
    requires Queued(steps, src, from, done, queue, seen)
    ensures Distinct(done) && forall s | s in done :: IsEndpoint(steps, s)
  {
    hide Reached, IsEndpoint;
    assert forall i | 0 <= i < |done| :: (done + queue)[i] == done[i];
  }

  lemma ExpandedStep(steps: seq<FlowStep>, src: bytes, to: Captured, toNode: Option<Span>, done: seq<Span>, cur: Span,
          seen: set<Span>, seen': set<Span>)
    requires Expanded(steps, src, to, toNode, done, seen) && seen <= seen' && !Binds(to, toNode, cur)
    requires forall b :: Edge(steps, src, cur, b) ==> b in seen'
    ensures Expanded(steps, src, to, toNode, done + [cur], seen')
  {
    hide Edge, Binds;
  }

  // ----- what the leaf promises -----

  /** A value that already lies inside the destination reaches it, whether or not it is an endpoint. */
  lemma FromInsideToFlows(steps: seq<FlowStep>, src: bytes, from: Captured, to: Captured, toNode: Option<Span>, v: Span)
    requires steps != [] && v in Values(from) && Inside(v, to.span)
    ensures Flows(steps, src, from, to, toNode)
  {
    hide Consumes;
    if IsEndpoint(steps, v) {
      assert IsSeed(steps, from, v);
      ReachedSeed(steps, src, from, v);
      assert Binds(to, toNode, v);
    }
  }

  /** A composite value that no step consumes and that does not lie inside the destination reaches nothing,
      however many endpoints share the text of its operands. */
  lemma UnconsumedCompositeNeverFlows(steps: seq<FlowStep>, src: bytes, from: Captured, to: Captured,
          toNode: Option<Span>)
    requires forall v | v in Values(from) :: !IsEndpoint(steps, v) && !Inside(v, to.span)
    requires forall v, t | v in Values(from) :: !Consumes(steps, v, t)
    ensures !Flows(steps, src, from, to, toNode)
  {
    hide IsEndpoint, Consumes, Edge, Values;
    forall s ensures !Reached(steps, src, from, s) {
    }
  }
}
