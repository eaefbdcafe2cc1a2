/** What the order of task rows, nodes and edges means for `settle` (src/mission.rs:847-1098): rows and
    nodes nothing, edges only through the text of the objects that output nodes build. */
module SettleOrder {
  import opened Text
  import opened Conditions
  import opened JsonText
  import opened Flow
  import opened Graph
  import opened Convergence

  /** The same nodes and edges, listed in any order and with any repetition of edges. */
  ghost predicate SameFlow(a: Definition, b: Definition) {
    && (forall n :: n in a.nodes <==> n in b.nodes)
    && (forall e :: e in a.edges <==> e in b.edges)
    && a.concurrency == b.concurrency && a.retries == b.retries
  }

  lemma SameFlowParts(a: Definition, b: Definition, env: Tasks, v: NodeId)
    requires WellFormed(a) && WellFormed(b) && SameFlow(a, b)
    ensures Sources(a, v) == Sources(b, v)
    ensures Ready(a, env, v) <==> Ready(b, env, v)
    ensures Activated(a, env, v) <==> Activated(b, env, v)
  {
    hide ExplicitMatch, IsDefault;
    assert Sources(a, v) == Sources(b, v);
    forall u, out ensures Activates(a, u, v, out) <==> Activates(b, u, v, out) {
      assert forall e :: EdgeFires(a, e, out) <==> EdgeFires(b, e, out);
    }
    hide Activates;
    assert forall u :: Fired(a, env, u, v) <==> Fired(b, env, u, v);
  }

  /** An output node that builds its object when it gets its verdict. */
  ghost predicate Aggregates(def: Definition, env: Tasks, t: Task, v: NodeId) {
    && t.status.Queued? && Ready(def, env, v) && Activated(def, env, v)
    && var n := NodeOf(def.nodes, v);
       n.Some? && n.value.kind.Output?
  }

  lemma SameFlowVerdict(a: Definition, b: Definition, env: Tasks, t: Task, v: NodeId)
    requires WellFormed(a) && WellFormed(b) && SameFlow(a, b)
    ensures Verdict(a, env, env, t, v) == Verdict(b, env, env, t, v) <==>
            (Aggregates(a, env, t, v) ==> Gathered(a.edges, env, v) == Gathered(b.edges, env, v))
  {
    hide WellFormed, SameFlow, Ready, Activated, NodeOf, Gathered, DistinctKeys;
    SameFlowParts(a, b, env, v);
    SameNode(a, b, v);
    GatheredKeys(a.edges, env, v);
    GatheredKeys(b.edges, env, v);
    ObjectTellsOrder(Gathered(a.edges, env, v), Gathered(b.edges, env, v));
    hide ObjectOf;
  }

  lemma InsertKeys(items: seq<Member>, m: Member)
    requires DistinctKeys(items)
    ensures DistinctKeys(Insert(items, m))
  {
  }

  lemma {:induction false} GatheredKeys(edges: seq<Edge>, env: Tasks, v: NodeId)
    ensures DistinctKeys(Gathered(edges, env, v))
  {
    hide Insert, DistinctKeys;
    if edges == [] {
      NoKeys();
    } else {
      var last := |edges| - 1;
      var e := edges[last];
      GatheredKeys(edges[..last], env, v);
      if e.to == v && Offers(env, e.from) {
        InsertKeys(Gathered(edges[..last], env, v), Member(e.from, env[e.from].output.value));
      }
    }
  }

  lemma NoKeys()
    ensures DistinctKeys([])
  {
  }

  lemma SameNode(a: Definition, b: Definition, v: NodeId)
    requires WellFormed(a) && WellFormed(b) && SameFlow(a, b)
    ensures NodeOf(a.nodes, v) == NodeOf(b.nodes, v)
  {
    var x, y := NodeOf(a.nodes, v), NodeOf(b.nodes, v);
    if x.Some? {
      assert x.value in b.nodes;
      if y.Some? {
        assert y.value in a.nodes;
      }
    }
  }

  lemma SameFlowAcyclic(a: Definition, b: Definition)
    requires SameFlow(a, b) && Acyclic(a)
    ensures Acyclic(b)
  {
    forall zone: set<NodeId> | Sustained(b, zone) ensures Sustained(a, zone) {
      SameSustained(a, b, zone);
    }
  }

  /** The output nodes that build their objects on the way from `start` to `sol` gather the same
      members in the same order. */
  ghost predicate SameObjects(a: Definition, b: Definition, start: Tasks, sol: Tasks) {
    forall v <- start.Keys :: Aggregates(a, sol, start[v], v) ==> Gathered(a.edges, sol, v) == Gathered(b.edges, sol, v)
  }

  /** While the budget does not bind, two listings of one flow settle alike, whatever the order of
      their task rows, nodes and edges, exactly when their output nodes gather alike. */
  lemma SettleIgnoresOrderIff(a: Definition, orderA: seq<NodeId>, b: Definition, orderB: seq<NodeId>,
                              start: Tasks, sol: Tasks)
    requires WellFormed(a) && WellFormed(b) && SameFlow(a, b) && Acyclic(a)
    requires start.Keys == Ids(a) == Ids(b) && Covers(orderA, start) && Covers(orderB, start)
    requires |RunningSet(start)| <= MaxRunning(a)
    requires Solution(a, start, sol) && |RunningSet(sol)| <= MaxRunning(a)
    ensures Settle(a, orderA, start).tasks == sol
    ensures Settle(b, orderB, start).tasks == sol <==> SameObjects(a, b, start, sol)
  {
    hide Settle, Verdict, Sources, WellFormed, Acyclic, Aggregates, Gathered, Converged, SpawnsAre, Ready;
    SettleIsSolution(a, orderA, start, sol);
    SameFlowAcyclic(a, b);
    SameBudget(a, b);
    forall v | v in start
      ensures sol[v] == Verdict(a, sol, sol, start[v], v)
      ensures sol[v] == Verdict(b, sol, sol, start[v], v) <==>
              (Aggregates(a, sol, start[v], v) ==> Gathered(a.edges, sol, v) == Gathered(b.edges, sol, v))
    {
      SameFlowVerdict(a, b, sol, start[v], v);
    }
    hide SameFlow;
    if SameObjects(a, b, start, sol) {
      SettleIsSolution(b, orderB, start, sol);
    }
    if Settle(b, orderB, start).tasks == sol {
      SettleCorrect(b, orderB, start);
      forall v | v in start && Aggregates(a, sol, start[v], v) ensures sol[v] == Verdict(b, sol, sol, start[v], v) {
        AggregatedMoves(a, start, sol, v);
        assert Moved(b, start, sol, v);
      }
    }
  }

  lemma AggregatedMoves(def: Definition, start: Tasks, sol: Tasks, v: NodeId)
    requires v in start && v in sol && sol[v] == Verdict(def, sol, sol, start[v], v)
    requires Aggregates(def, sol, start[v], v)
    ensures start[v].status.Queued? && sol[v].status.Succeeded?
  {
    hide Ready, Activated, NodeOf, Upstream;
  }

  /** Neither the order of the task rows nor that of the nodes matters. */
  lemma SettleIgnoresRows(a: Definition, orderA: seq<NodeId>, b: Definition, orderB: seq<NodeId>,
                          start: Tasks, sol: Tasks)
    requires WellFormed(a) && WellFormed(b) && SameFlow(a, b) && a.edges == b.edges && Acyclic(a)
    requires start.Keys == Ids(a) == Ids(b) && Covers(orderA, start) && Covers(orderB, start)
    requires |RunningSet(start)| <= MaxRunning(a)
    requires Solution(a, start, sol) && |RunningSet(sol)| <= MaxRunning(a)
    ensures Settle(a, orderA, start).tasks == Settle(b, orderB, start).tasks == sol
  {
    hide Settle, Solution, WellFormed, Acyclic, Aggregates, Gathered, SameFlow;
    SettleIgnoresOrderIff(a, orderA, b, orderB, start, sol);
  }

  // --- The order of edges -----------------------------------------------------

  /** The sources of `v`, each where it is named first. */
  function SourceOrder(edges: seq<Edge>, v: NodeId): seq<NodeId> {
    if edges == [] then []
    else
      var last := |edges| - 1;
      var before := SourceOrder(edges[..last], v);
      var e := edges[last];
      if e.to == v && e.from !in before then before + [e.from] else before
  }

  /** What the listed sources offer. */
  function Offered(sources: seq<NodeId>, env: Tasks): seq<Member> {
    if sources == [] then []
    else
      var last := |sources| - 1;
      var u := sources[last];
      Offered(sources[..last], env) + if Offers(env, u) then [Member(u, env[u].output.value)] else []
  }

  lemma {:induction false} OfferedMembers(sources: seq<NodeId>, env: Tasks, u: NodeId)
    requires Offers(env, u)
    ensures Member(u, env[u].output.value) in Offered(sources, env) <==> u in sources
    ensures HasKey(Offered(sources, env), u) <==> u in sources
  {
    if sources != [] {
      OfferedMembers(sources[..|sources| - 1], env, u);
    }
  }

  lemma InsertAgain(items: seq<Member>, m: Member)
    requires DistinctKeys(items) && m in items
    ensures Insert(items, m) == items
  {
  }

  /** A node's members follow its first-named sources. */
  lemma {:induction false} GatheredIsOffered(edges: seq<Edge>, env: Tasks, v: NodeId)
    ensures Gathered(edges, env, v) == Offered(SourceOrder(edges, v), env)
  {
    if edges != [] {
      hide Insert, DistinctKeys, HasKey;
      var last := |edges| - 1;
      var e := edges[last];
      var before := SourceOrder(edges[..last], v);
      GatheredIsOffered(edges[..last], env, v);
      GatheredKeys(edges[..last], env, v);
      assert (before + [e.from])[..|before|] == before;
      if e.to == v && Offers(env, e.from) {
        var m := Member(e.from, env[e.from].output.value);
        OfferedMembers(before, env, e.from);
        if e.from in before {
          InsertAgain(Offered(before, env), m);
        } else {
          InsertNew(Offered(before, env), m);
        }
      }
    }
  }

  lemma InsertNew(items: seq<Member>, m: Member)
    requires !HasKey(items, m.key)
    ensures Insert(items, m) == items + [m]
  {
  }

  /** Edges may be listed in any order that leaves the incoming ones of each output node in theirs. */
  lemma SettleIgnoresEdges(a: Definition, orderA: seq<NodeId>, b: Definition, orderB: seq<NodeId>,
                           start: Tasks, sol: Tasks)
    requires WellFormed(a) && WellFormed(b) && SameFlow(a, b) && Acyclic(a)
    requires forall n <- a.nodes :: n.kind.Output? ==> SourceOrder(a.edges, n.id) == SourceOrder(b.edges, n.id)
    requires start.Keys == Ids(a) == Ids(b) && Covers(orderA, start) && Covers(orderB, start)
    requires |RunningSet(start)| <= MaxRunning(a)
    requires Solution(a, start, sol) && |RunningSet(sol)| <= MaxRunning(a)
    ensures Settle(a, orderA, start).tasks == Settle(b, orderB, start).tasks == sol
  {
    hide Settle, Solution, WellFormed, Acyclic, Gathered, SameFlow, Ready, Activated, SourceOrder;
    SettleIgnoresOrderIff(a, orderA, b, orderB, start, sol);
    forall v | v in start && Aggregates(a, sol, start[v], v)
      ensures Gathered(a.edges, sol, v) == Gathered(b.edges, sol, v)
    {
      var n := NodeOf(a.nodes, v).value;
      assert SourceOrder(a.edges, n.id) == SourceOrder(b.edges, n.id);
      GatheredIsOffered(a.edges, sol, v);
      GatheredIsOffered(b.edges, sol, v);
    }
  }

  lemma SameBudget(a: Definition, b: Definition)
    requires SameFlow(a, b)
    ensures MaxRunning(a) == MaxRunning(b)
  {
  }

  lemma SameSustained(a: Definition, b: Definition, zone: set<NodeId>)
    requires SameFlow(a, b) && Sustained(b, zone)
    ensures Sustained(a, zone)
  {
    forall v | v in zone ensures HasSourceIn(a, zone, v) {
      var u := SourceInZone(b, zone, v);
      assert HasEdge(a, u, v);
    }
  }
}
