/** What one `settle` does to each task, in terms of the nodes and edges of the flow alone
    (src/mission.rs:905-1097). */
module SettleMeaning {
  import opened Text
  import opened Conditions
  import opened JsonText
  import opened Flow
  import opened Graph
  import opened Convergence
  import opened SettleOrder

  /** Nothing more will happen to the task by itself. */
  predicate Over(t: Task) {
    t.status.Succeeded? || t.status.Failed? || t.status.Cancelled? || t.status.Excluded?
  }

  /** The edge leads to `v` from a succeeded node and fires on that node's output. */
  predicate Delivers(def: Definition, env: Tasks, e: Edge, v: NodeId) {
    && e.to == v && e.from in env && env[e.from].status.Succeeded?
    && EdgeFires(def, e, if env[e.from].output.Some? then env[e.from].output.value else Null)
  }

  /** A node without incoming edges, or with one that delivers. */
  ghost predicate Called(def: Definition, env: Tasks, v: NodeId) {
    (forall e <- def.edges :: e.to != v) || exists e <- def.edges :: Delivers(def, env, e, v)
  }

  ghost predicate SourcesOver(def: Definition, env: Tasks, v: NodeId) {
    forall e <- def.edges :: e.to == v ==> e.from in env && Over(env[e.from])
  }

  /** An object of the outputs of the succeeded sources. */
  ghost predicate Collects(def: Definition, env: Tasks, v: NodeId, output: Option<Json>) {
    && output.Some? && output.value.Object?
    && var fields := output.value.fields;
       && (forall u :: u in fields <==>
                         && (exists e <- def.edges :: e.from == u && e.to == v)
                         && u in env && env[u].status.Succeeded? && env[u].output.Some?)
       && (forall u <- fields :: env[u].output == Some(fields[u]))
  }

  /** What becomes of a task that is called: its node decides. */
  ghost predicate Acts(def: Definition, env: Tasks, n: Node, before: Task, after: Task) {
    match n.kind
    case Agent => after == before.(status := Running)
    case Human => after == before.(status := WaitingHuman)
    case Input => after == before.(status := Succeeded, output := Some(if n.value.Some? then n.value.value else Null))
    case Output =>
      after == before.(status := Succeeded, output := after.output) && Collects(def, env, n.id, after.output)
  }

  // --- Joining the pieces -------------------------------------------------------

  lemma ReadyMeans(def: Definition, env: Tasks, v: NodeId)
    ensures Ready(def, env, v) <==> SourcesOver(def, env, v)
  {
    assert forall e <- def.edges :: e.to == v ==> e.from in Sources(def, v);
  }

  lemma ActivatedMeans(def: Definition, env: Tasks, v: NodeId)
    ensures Activated(def, env, v) <==> Called(def, env, v)
  {
    hide EdgeFires;
    assert Sources(def, v) == {} <==> forall e <- def.edges :: e.to != v by {
      assert forall e <- def.edges :: e.to == v ==> e.from in Sources(def, v);
    }
    if e :| e in def.edges && Delivers(def, env, e, v) {
      assert e.from in Sources(def, v) && Fired(def, env, e.from, v);
    }
  }

  /** The members are those of the sources that the edges name. */
  lemma {:induction false} GatheredMembers(edges: seq<Edge>, env: Tasks, v: NodeId, m: Member)
    ensures m in Gathered(edges, env, v) <==>
            && (exists e <- edges :: e.from == m.key && e.to == v)
            && Offers(env, m.key) && m.value == env[m.key].output.value
  {
    if edges != [] {
      var last := |edges| - 1;
      var e := edges[last];
      GatheredMembers(edges[..last], env, v, m);
      GatheredKeys(edges[..last], env, v);
      assert edges == edges[..last] + [e];
      if e.to == v && Offers(env, e.from) {
        var own := Member(e.from, env[e.from].output.value);
        GatheredMembers(edges[..last], env, v, own);
        if HasKey(Gathered(edges[..last], env, v), e.from) {
          var other :| other in Gathered(edges[..last], env, v) && other.key == e.from;
          GatheredMembers(edges[..last], env, v, other);
          InsertAgain(Gathered(edges[..last], env, v), own);
        } else {
          InsertNew(Gathered(edges[..last], env, v), own);
        }
      }
    }
  }

  lemma UpstreamCollects(def: Definition, env: Tasks, v: NodeId)
    ensures Collects(def, env, v, Some(Upstream(def, env, v)))
  {
    hide Gathered, DistinctKeys, FieldsOf, Render;
    var items := Gathered(def.edges, env, v);
    GatheredKeys(def.edges, env, v);
    FieldsAreMembers(items);
    forall m: Member
      ensures m in items <==>
              && (exists e <- def.edges :: e.from == m.key && e.to == v)
              && Offers(env, m.key) && m.value == env[m.key].output.value
    {
      GatheredMembers(def.edges, env, v, m);
    }
    var fields := FieldsOf(items);
    forall u ensures u in fields <==> (exists e <- def.edges :: e.from == u && e.to == v) && Offers(env, u) {
      if u in fields {
        assert Member(u, fields[u]) in items;
      }
      if (exists e <- def.edges :: e.from == u && e.to == v) && Offers(env, u) {
        assert Member(u, env[u].output.value) in items;
      }
    }
    forall u | u in fields ensures env[u].output == Some(fields[u]) {
      assert Member(u, fields[u]) in items;
    }
  }

  lemma VerdictMeans(def: Definition, env: Tasks, t: Task, v: NodeId)
    requires WellFormed(def) && v in Ids(def) && t.status.Queued? && Ready(def, env, v)
    ensures var r := Verdict(def, env, env, t, v);
            if Called(def, env, v) then exists n <- def.nodes :: n.id == v && Acts(def, env, n, t, r)
            else r == t.(status := Cancelled)
  {
    hide Ready, Activated, Called, Upstream, Collects, WellFormed;
    ActivatedMeans(def, env, v);
    NodeOfKnown(def, v);
    UpstreamCollects(def, env, v);
    var n := NodeOf(def.nodes, v).value;
    if Called(def, env, v) {
      assert n in def.nodes && n.id == v && Acts(def, env, n, t, Verdict(def, env, env, t, v));
    }
  }

  /** The full effect of `settle` on each task. What changes was queued, has all its sources over, and
      is cut off if nothing delivers to it; if something does, an agent is set running and spawned, a
      human is asked, an input hands on its value, and an output collects what its sources gave. What
      stays queued waits for a source, or is an agent that waits for a slot. */
  lemma SettleEffect(def: Definition, order: seq<NodeId>, start: Tasks, v: NodeId)
    requires WellFormed(def) && start.Keys == Ids(def) && Covers(order, start) && v in start
    requires |RunningSet(start)| <= MaxRunning(def)
    ensures var r := Settle(def, order, start);
            var before, after := start[v], r.tasks[v];
            && (after != before ==> before.status.Queued? && SourcesOver(def, r.tasks, v))
            && (after != before && !Called(def, r.tasks, v) ==> after == before.(status := Cancelled))
            && (after != before && Called(def, r.tasks, v) ==>
                  exists n <- def.nodes :: n.id == v && Acts(def, r.tasks, n, before, after))
            && (after == before && before.status.Queued? && SourcesOver(def, r.tasks, v) ==>
                  && Called(def, r.tasks, v) && HasAgent(def, v)
                  && |(set u | u in r.tasks && r.tasks[u].status.Running?)| ==
                     if def.concurrency < 1 then 1 else if def.concurrency > 64 then 64 else def.concurrency)
            && (v in r.spawns <==> before.status.Queued? && after.status.Running?)
  {
    hide Settle, Verdict, Ready, WellFormed, Called, SourcesOver, Activated, HasAgent, Acts, Converged;
    SettleCorrect(def, order, start);
    var r := Settle(def, order, start);
    ReadyMeans(def, r.tasks, v);
    ActivatedMeans(def, r.tasks, v);
    if r.tasks[v] != start[v] {
      VerdictMeans(def, r.tasks, start[v], v);
    } else if start[v].status.Queued? && Ready(def, r.tasks, v) {
      NoIdleSlot(def, order, start, v);
      AgentNode(def, v);
      assert RunningSet(r.tasks) == (set u | u in r.tasks && r.tasks[u].status.Running?);
    }
  }

  predicate HasAgent(def: Definition, v: NodeId) {
    exists n <- def.nodes :: n.id == v && n.kind.Agent?
  }

  lemma AgentNode(def: Definition, v: NodeId)
    requires NodeOf(def.nodes, v).Some? && NodeOf(def.nodes, v).value.kind.Agent?
    ensures HasAgent(def, v)
  {
  }
}
