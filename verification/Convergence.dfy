/** The convergence pass of the mission scheduler on values (src/mission.rs:847-1098):
    what one pass decides for each queued task, the fixpoint of passes, and what that
    fixpoint means. */
module Convergence {
  import opened Text
  import opened Conditions
  import opened Flow
  import opened Graph
  import opened JsonText

  datatype Status = Queued | Running | WaitingHuman | Succeeded | Failed | Cancelled | Excluded {
    predicate Terminal() {
      !Queued? && !Running? && !WaitingHuman?
    }
  }

  datatype Task = Task(status: Status, attempt: nat, output: Option<Json>, error: Option<string>)

  type Tasks = map<NodeId, Task>

  const MAX_CONCURRENCY := 64

  /** `clamp(concurrency, 1, 64)`. */
  function MaxRunning(def: Definition): nat {
    if def.concurrency < 1 then 1
    else if def.concurrency > MAX_CONCURRENCY then MAX_CONCURRENCY
    else def.concurrency
  }

  function RunningSet(tasks: Tasks): set<NodeId> {
    set v | v in tasks && tasks[v].status.Running?
  }

  function QueuedSet(tasks: Tasks): set<NodeId> {
    set v | v in tasks && tasks[v].status.Queued?
  }

  predicate AllTerminal(tasks: Tasks) {
    forall v <- tasks.Keys :: tasks[v].status.Terminal()
  }

  /** No source is still queued, running or waiting. */
  predicate Ready(def: Definition, env: Tasks, v: NodeId) {
    forall u <- Sources(def, v) :: u in env && env[u].status.Terminal()
  }

  function OutputOf(t: Task): Json {
    if t.output.Some? then t.output.value else Null
  }

  predicate Fired(def: Definition, env: Tasks, u: NodeId, v: NodeId) {
    u in env && env[u].status.Succeeded? && Activates(def, u, v, OutputOf(env[u]))
  }

  /** A root is activated from the start; any other node by one fired edge. */
  predicate Activated(def: Definition, env: Tasks, v: NodeId) {
    Sources(def, v) == {} || exists u <- Sources(def, v) :: Fired(def, env, u, v)
  }

  /** Insertion as a JSON object has it: a known key keeps its place. */
  function Insert(items: seq<Member>, m: Member): seq<Member> {
    if HasKey(items, m.key)
    then seq(|items|, i requires 0 <= i < |items| => if items[i].key == m.key then m else items[i])
    else items + [m]
  }

  /** The output that `u` has to offer. */
  predicate Offers(env: Tasks, u: NodeId) {
    u in env && env[u].status.Succeeded? && env[u].output.Some?
  }

  /** The outputs of the succeeded sources, in the order in which the edges name them. */
  function Gathered(edges: seq<Edge>, env: Tasks, v: NodeId): seq<Member> {
    if edges == [] then []
    else
      var last := |edges| - 1;
      var before := Gathered(edges[..last], env, v);
      var e := edges[last];
      if e.to == v && Offers(env, e.from) then Insert(before, Member(e.from, env[e.from].output.value)) else before
  }

  function Upstream(def: Definition, env: Tasks, v: NodeId): Json {
    ObjectOf(Gathered(def.edges, env, v))
  }

  /** What becomes of task `t` of node `v` while the concurrency budget does not bind:
      sources are judged in `snap`, upstream outputs are read from `live`. */
  function Verdict(def: Definition, snap: Tasks, live: Tasks, t: Task, v: NodeId): Task {
    if !t.status.Queued? || !Ready(def, snap, v) then t
    else if !Activated(def, snap, v) then t.(status := Cancelled)
    else
      match NodeOf(def.nodes, v)
      case None => t
      case Some(n) =>
        match n.kind
        case Input => t.(status := Succeeded, output := Some(if n.value.Some? then n.value.value else Null))
        case Output => t.(status := Succeeded, output := Some(Upstream(def, live, v)))
        case Human => t.(status := WaitingHuman)
        case Agent => t.(status := Running)
  }

  /** The verdict, except that an agent stays queued while the budget is full. */
  function Decide(def: Definition, snap: Tasks, live: Tasks, v: NodeId): Task
    requires v in live
  {
    var t := Verdict(def, snap, live, live[v], v);
    if t.status.Running? && live[v].status.Queued? && |RunningSet(live)| >= MaxRunning(def) then live[v] else t
  }

  datatype Settled = Settled(tasks: Tasks, spawns: seq<NodeId>)

  /** One sweep over the rows in `order`, all judged against the same snapshot. */
  function Pass(def: Definition, order: seq<NodeId>, snap: Tasks): (r: Settled)
    requires forall v <- order :: v in snap
    ensures r.tasks.Keys == snap.Keys && forall v <- r.spawns :: v in snap
  {
    if order == [] then Settled(snap, [])
    else
      var before := Pass(def, order[..|order| - 1], snap);
      var v := order[|order| - 1];
      var t := Decide(def, snap, before.tasks, v);
      Settled(before.tasks[v := t],
              if t.status.Running? && !before.tasks[v].status.Running? then before.spawns + [v] else before.spawns)
  }

  ghost predicate Covers(order: seq<NodeId>, tasks: Tasks) {
    Distinct(order) && (set v <- order) == tasks.Keys
  }

  // --- What the verdict depends on -------------------------------------------

  lemma VerdictShape(def: Definition, env: Tasks, t: Task, v: NodeId)
    ensures var r := Verdict(def, env, env, t, v);
            || r == t
            || (t.status.Queued? && Ready(def, env, v) && !r.status.Queued? && r.attempt == t.attempt
                && (r.status.Cancelled? || Activated(def, env, v))
                && (r.status.Failed? || r.status.Excluded? ==> false))
  {
    hide Activated, Ready, Upstream;
  }

  /** Sources that are terminal agree, and the others are unfinished in both. */
  ghost predicate SameSources(def: Definition, a: Tasks, b: Tasks, v: NodeId) {
    forall u <- Sources(def, v) ::
      && u in a && u in b
      && (a[u].status.Terminal() <==> b[u].status.Terminal())
      && (a[u].status.Terminal() ==> a[u] == b[u])
  }

  lemma VerdictDependsOnSources(def: Definition, a: Tasks, b: Tasks, t: Task, v: NodeId)
    requires SameSources(def, a, b, v)
    ensures Ready(def, a, v) <==> Ready(def, b, v)
    ensures Verdict(def, a, a, t, v) == Verdict(def, b, b, t, v)
  {
    hide Activates;
    if Ready(def, a, v) {
      assert forall u <- Sources(def, v) :: Fired(def, a, u, v) <==> Fired(def, b, u, v);
      UpstreamDependsOnSources(def, a, b, v);
    }
  }

  lemma UpstreamDependsOnSources(def: Definition, a: Tasks, b: Tasks, v: NodeId)
    requires forall u <- Sources(def, v) :: u in a && u in b && a[u] == b[u]
    ensures Upstream(def, a, v) == Upstream(def, b, v)
  {
    forall e | e in def.edges && e.to == v ensures e.from in a && e.from in b && a[e.from] == b[e.from] {
      assert e.from in Sources(def, v);
    }
    GatheredDependsOnSources(def.edges, a, b, v);
  }

  lemma {:induction false} GatheredDependsOnSources(edges: seq<Edge>, a: Tasks, b: Tasks, v: NodeId)
    requires forall e <- edges :: e.to == v ==> e.from in a && e.from in b && a[e.from] == b[e.from]
    ensures Gathered(edges, a, v) == Gathered(edges, b, v)
  {
    hide Insert;
    if edges != [] {
      GatheredDependsOnSources(edges[..|edges| - 1], a, b, v);
    }
  }

  // --- One pass --------------------------------------------------------------

  ghost predicate Held(def: Definition, snap: Tasks, cur: Tasks, v: NodeId)
    requires v in snap && v in cur
  {
    && snap[v].status.Queued? && cur[v] == snap[v]
    && Verdict(def, snap, snap, snap[v], v).status.Running?
    && |RunningSet(cur)| >= MaxRunning(def)
  }

  ghost predicate Handled(def: Definition, snap: Tasks, cur: Tasks, v: NodeId)
    requires v in snap && v in cur
  {
    cur[v] == Verdict(def, snap, snap, snap[v], v) || Held(def, snap, cur, v)
  }

  /** The pass has handled exactly the nodes of `done`. */
  ghost predicate Swept(def: Definition, done: seq<NodeId>, snap: Tasks, cur: Tasks) {
    && cur.Keys == snap.Keys
    && (forall v <- snap.Keys :: if v in done then Handled(def, snap, cur, v) else cur[v] == snap[v])
  }

  lemma TerminalKept(def: Definition, done: seq<NodeId>, snap: Tasks, cur: Tasks, u: NodeId)
    requires Swept(def, done, snap, cur) && u in snap && !snap[u].status.Queued?
    ensures cur[u] == snap[u]
  {
    hide Ready, Activated;
  }

  lemma RunningGrows(tasks: Tasks, v: NodeId, t: Task)
    requires v in tasks && !tasks[v].status.Running?
    ensures RunningSet(tasks[v := t]) == if t.status.Running? then RunningSet(tasks) + {v} else RunningSet(tasks)
  {
  }

  lemma DecideIsVerdict(def: Definition, done: seq<NodeId>, snap: Tasks, cur: Tasks, v: NodeId)
    requires Swept(def, done, snap, cur) && v in snap && v !in done
    ensures Decide(def, snap, cur, v) ==
            var t := Verdict(def, snap, snap, snap[v], v);
            if t.status.Running? && snap[v].status.Queued? && |RunningSet(cur)| >= MaxRunning(def) then snap[v] else t
  {
    hide Activated, Handled, Upstream;
    if Ready(def, snap, v) {
      forall u | u in Sources(def, v) ensures cur[u] == snap[u] {
        TerminalKept(def, done, snap, cur, u);
      }
      UpstreamDependsOnSources(def, snap, cur, v);
    }
  }

  lemma SweepOne(def: Definition, done: seq<NodeId>, snap: Tasks, cur: Tasks, v: NodeId)
    requires Swept(def, done, snap, cur) && v in snap && v !in done
    ensures Swept(def, done + [v], snap, cur[v := Decide(def, snap, cur, v)])
    ensures var next := cur[v := Decide(def, snap, cur, v)];
            && RunningSet(cur) <= RunningSet(next)
            && (|RunningSet(cur)| <= MaxRunning(def) ==> |RunningSet(next)| <= MaxRunning(def))
  {
    DecideIsVerdict(def, done, snap, cur, v);
    VerdictShape(def, snap, snap[v], v);
    hide Verdict, Decide, MaxRunning;
    var next := cur[v := Decide(def, snap, cur, v)];
    if !cur[v].status.Running? {
      RunningGrows(cur, v, next[v]);
    } else {
      assert next == cur;
    }
    forall w | w in snap && w in done + [v] ensures Handled(def, snap, next, w) {
      if w != v {
        assert Handled(def, snap, cur, w);
      }
    }
  }

  ghost predicate SpawnsAre(spawns: seq<NodeId>, before: Tasks, after: Tasks) {
    && Distinct(spawns)
    && (forall v :: v in spawns <==>
                      v in after && after[v].status.Running? && !(v in before && before[v].status.Running?))
  }

  lemma {:induction false} PassSweeps(def: Definition, order: seq<NodeId>, snap: Tasks)
    requires Distinct(order) && forall v <- order :: v in snap
    ensures var r := Pass(def, order, snap).tasks;
            && Swept(def, order, snap, r)
            && RunningSet(snap) <= RunningSet(r)
            && (|RunningSet(snap)| <= MaxRunning(def) ==> |RunningSet(r)| <= MaxRunning(def))
    decreases |order|
  {
    hide Decide, Verdict, RunningSet, MaxRunning;
    if order != [] {
      var init, v := order[..|order| - 1], order[|order| - 1];
      PassSweeps(def, init, snap);
      assert v !in init && init + [v] == order;
      SweepOne(def, init, snap, Pass(def, init, snap).tasks, v);
      hide Swept;
    }
  }

  lemma {:induction false} PassSpawns(def: Definition, order: seq<NodeId>, snap: Tasks)
    requires Distinct(order) && forall v <- order :: v in snap
    ensures SpawnsAre(Pass(def, order, snap).spawns, snap, Pass(def, order, snap).tasks)
    decreases |order|
  {
    if order == [] {
      NoSpawns(snap);
    } else {
      var init, v := order[..|order| - 1], order[|order| - 1];
      var before := Pass(def, init, snap);
      PassSpawns(def, init, snap);
      PassSweeps(def, init, snap);
      assert v !in init;
      NotYetSwept(def, init, snap, before.tasks, v);
      hide Decide, Swept, RunningSet;
      if before.tasks[v].status.Running? {
        RunningKept(def, snap, before.tasks, v);
      }
      SpawnOne(before.spawns, snap, before.tasks, v, Decide(def, snap, before.tasks, v));
    }
  }

  /** Deciding never takes a running task out of its slot. */
  lemma RunningKept(def: Definition, snap: Tasks, live: Tasks, v: NodeId)
    requires v in live && live[v].status.Running?
    ensures Decide(def, snap, live, v) == live[v]
  {
  }

  lemma SpawnOne(spawns: seq<NodeId>, before: Tasks, mid: Tasks, v: NodeId, t: Task)
    requires SpawnsAre(spawns, before, mid) && v in before && v in mid && mid[v] == before[v]
    requires mid[v].status.Running? ==> t.status.Running?
    ensures SpawnsAre(if t.status.Running? && !mid[v].status.Running? then spawns + [v] else spawns,
                      before, mid[v := t])
  {
    if t.status.Running? && !mid[v].status.Running? {
      assert v !in spawns;
      assert forall i :: 0 <= i < |spawns| ==> spawns[i] in spawns;
    }
  }

  lemma NotYetSwept(def: Definition, done: seq<NodeId>, snap: Tasks, cur: Tasks, v: NodeId)
    requires Swept(def, done, snap, cur) && v in snap && v !in done
    ensures cur[v] == snap[v]
  {
  }

  // --- Passes until nothing changes ------------------------------------------

  /** A changed task was queued before and is not afterwards. */
  lemma PassShrinksQueue(def: Definition, order: seq<NodeId>, tasks: Tasks)
    requires Covers(order, tasks)
    ensures var next := Pass(def, order, tasks).tasks;
            && QueuedSet(next) <= QueuedSet(tasks)
            && (next != tasks ==> QueuedSet(next) < QueuedSet(tasks))
  {
    PassSweeps(def, order, tasks);
    var next := Pass(def, order, tasks).tasks;
    hide Verdict, Pass;
    forall v | v in tasks ensures next[v] == tasks[v] || (tasks[v].status.Queued? && !next[v].status.Queued?) {
      VerdictShape(def, tasks, tasks[v], v);
    }
    if next != tasks {
      var v :| v in tasks && next[v] != tasks[v];
      assert v in QueuedSet(tasks) && v !in QueuedSet(next);
    }
  }

  /** Passes until one changes nothing; the spawns of all passes, in order. */
  ghost function Settle(def: Definition, order: seq<NodeId>, tasks: Tasks): (r: Settled)
    requires Covers(order, tasks)
    ensures r.tasks.Keys == tasks.Keys && forall v <- r.spawns :: v in tasks
    decreases QueuedSet(tasks)
  {
    var p := Pass(def, order, tasks);
    if p.tasks == tasks then Settled(tasks, [])
    else
      PassShrinksQueue(def, order, tasks);
      var rest := Settle(def, order, p.tasks);
      Settled(rest.tasks, p.spawns + rest.spawns)
  }

  /** Each task either kept its row or took its verdict in the light of `cur`, which is
      final for it because its sources are terminal there. */
  ghost predicate Progress(def: Definition, start: Tasks, cur: Tasks) {
    && cur.Keys == start.Keys
    && (forall v <- start.Keys :: cur[v] == start[v] || Moved(def, start, cur, v))
  }

  ghost predicate Moved(def: Definition, start: Tasks, cur: Tasks, v: NodeId)
    requires v in start && v in cur
  {
    && start[v].status.Queued? && !cur[v].status.Queued? && Ready(def, cur, v)
    && cur[v] == Verdict(def, cur, cur, start[v], v)
  }

  lemma PassProgress(def: Definition, order: seq<NodeId>, start: Tasks, cur: Tasks)
    requires Progress(def, start, cur) && Covers(order, cur)
    ensures Progress(def, start, Pass(def, order, cur).tasks)
  {
    PassSweeps(def, order, cur);
    var next := Pass(def, order, cur).tasks;
    hide Pass;
    forall v | v in start ensures next[v] == start[v] || Moved(def, start, next, v) {
      VerdictShape(def, cur, cur[v], v);
      if Ready(def, cur, v) {
        forall u | u in Sources(def, v) ensures next[u] == cur[u] && u in cur {
          TerminalKept(def, order, cur, next, u);
        }
        VerdictDependsOnSources(def, cur, next, start[v], v);
      }
      hide Verdict, Ready, Sources;
      assert Handled(def, cur, next, v);
    }
  }

  /** No further pass changes anything, so a ready node can only be queued because it is an
      activated agent and the budget is full. */
  ghost predicate Converged(def: Definition, tasks: Tasks) {
    forall v <- tasks.Keys :: tasks[v].status.Queued? && Ready(def, tasks, v) ==> Held(def, tasks, tasks, v)
  }

  lemma ReadyMoves(def: Definition, env: Tasks, t: Task, v: NodeId)
    requires t.status.Queued? && Ready(def, env, v) && NodeOf(def.nodes, v).Some?
    ensures Verdict(def, env, env, t, v) != t
    ensures Verdict(def, env, env, t, v).status.Running? ==>
              Activated(def, env, v) && NodeOf(def.nodes, v).value.kind.Agent?
  {
    hide Activated, Upstream, Ready, NodeOf;
  }

  lemma FixpointConverged(def: Definition, order: seq<NodeId>, tasks: Tasks)
    requires WellFormed(def) && tasks.Keys == Ids(def)
    requires Covers(order, tasks) && Pass(def, order, tasks).tasks == tasks
    ensures Converged(def, tasks)
  {
    hide Pass, Activated, Upstream, Ready, WellFormed, MaxRunning, Verdict, NodeOf;
    PassSweeps(def, order, tasks);
    forall v | v in tasks && tasks[v].status.Queued? && Ready(def, tasks, v)
      ensures Held(def, tasks, tasks, v)
    {
      assert v in set x <- order;
      assert Handled(def, tasks, tasks, v);
      NodeOfKnown(def, v);
      ReadyMoves(def, tasks, tasks[v], v);
    }
  }

  /** Everything a settled result satisfies with respect to where it started. */
  ghost predicate SettledFrom(def: Definition, start: Tasks, r: Settled) {
    && Progress(def, start, r.tasks)
    && Converged(def, r.tasks)
    && (|RunningSet(start)| <= MaxRunning(def) ==> |RunningSet(r.tasks)| <= MaxRunning(def))
    && SpawnsAre(r.spawns, start, r.tasks)
  }

  lemma SpawnsCompose(a: seq<NodeId>, b: seq<NodeId>, x: Tasks, y: Tasks, z: Tasks)
    requires SpawnsAre(a, x, y) && SpawnsAre(b, y, z)
    requires x.Keys == y.Keys == z.Keys
    requires RunningSet(x) <= RunningSet(y) <= RunningSet(z)
    ensures SpawnsAre(a + b, x, z)
  {
    assert forall v <- x.Keys :: x[v].status.Running? ==> v in RunningSet(y);
    assert forall v <- x.Keys :: y[v].status.Running? ==> v in RunningSet(z);
    assert forall i :: 0 <= i < |a| ==> a[i] in a;
    assert forall i :: 0 <= i < |b| ==> b[i] in b;
    assert forall v :: v in a + b <==> v in a || v in b;
  }

  lemma {:induction false} SettleFacts(def: Definition, order: seq<NodeId>, start: Tasks, cur: Tasks)
    requires WellFormed(def) && start.Keys == Ids(def) && Covers(order, cur) && Progress(def, start, cur)
    ensures var r := Settle(def, order, cur);
            && Progress(def, start, r.tasks) && Converged(def, r.tasks)
            && (|RunningSet(cur)| <= MaxRunning(def) ==> |RunningSet(r.tasks)| <= MaxRunning(def))
            && RunningSet(cur) <= RunningSet(r.tasks)
            && SpawnsAre(r.spawns, cur, r.tasks)
    decreases QueuedSet(cur)
  {
    hide Pass, Progress, Converged, MaxRunning, SpawnsAre, Swept;
    var p := Pass(def, order, cur);
    PassSweeps(def, order, cur);
    PassSpawns(def, order, cur);
    ProgressKeys(def, start, cur);
    if p.tasks == cur {
      FixpointConverged(def, order, cur);
      NoSpawns(cur);
    } else {
      PassShrinksQueue(def, order, cur);
      PassProgress(def, order, start, cur);
      SettleFacts(def, order, start, p.tasks);
      var rest := Settle(def, order, p.tasks);
      ProgressKeys(def, start, rest.tasks);
      SpawnsCompose(p.spawns, rest.spawns, cur, p.tasks, rest.tasks);
    }
  }

  lemma ProgressKeys(def: Definition, start: Tasks, cur: Tasks)
    requires Progress(def, start, cur)
    ensures cur.Keys == start.Keys
  {
  }

  lemma NoSpawns(tasks: Tasks)
    ensures SpawnsAre([], tasks, tasks)
  {
  }

  /** `settle` terminates (it is a total function) and its result is a converged one. */
  lemma SettleCorrect(def: Definition, order: seq<NodeId>, start: Tasks)
    requires WellFormed(def) && start.Keys == Ids(def) && Covers(order, start)
    ensures SettledFrom(def, start, Settle(def, order, start))
  {
    SettleFacts(def, order, start, start);
  }

  // --- No idle slot, no deadlock ---------------------------------------------

  /** An agent whose sources are all terminal with a fired incoming edge stays queued only
      while the running count equals the clamped budget. */
  lemma NoIdleSlot(def: Definition, order: seq<NodeId>, start: Tasks, v: NodeId)
    requires WellFormed(def) && start.Keys == Ids(def) && Covers(order, start)
    requires |RunningSet(start)| <= MaxRunning(def)
    requires var fin := Settle(def, order, start).tasks;
             v in fin && fin[v].status.Queued? && Ready(def, fin, v)
    ensures var fin := Settle(def, order, start).tasks;
            && |RunningSet(fin)| == MaxRunning(def)
            && Activated(def, fin, v)
            && NodeOf(def.nodes, v).Some? && NodeOf(def.nodes, v).value.kind.Agent?
  {
    hide Settle, Verdict, Activated, Ready, NodeOf, WellFormed, RunningSet, MaxRunning, Progress, SpawnsAre;
    SettleCorrect(def, order, start);
    var fin := Settle(def, order, start).tasks;
    ProgressKeys(def, start, fin);
    assert Held(def, fin, fin, v);
    NodeOfKnown(def, v);
    ReadyMoves(def, fin, fin[v], v);
  }

  ghost predicate Awaiting(tasks: Tasks) {
    exists v <- tasks.Keys :: tasks[v].status.Running? || tasks[v].status.WaitingHuman?
  }

  /** A converged set of tasks over an acyclic flow is finished or waits for an executor
      or a human. */
  lemma ConvergedNotStuck(def: Definition, tasks: Tasks)
    requires WellFormed(def) && tasks.Keys == Ids(def) && Acyclic(def) && Converged(def, tasks)
    ensures AllTerminal(tasks) || Awaiting(tasks)
  {
    hide Verdict, Sources, HasEdge, Acyclic, WellFormed, Ids;
    if QueuedSet(tasks) != {} {
      var v := Minimal(def, QueuedSet(tasks));
      SourcesInIds(def, v);
      forall u | u in Sources(def, v) ensures u in tasks && !tasks[u].status.Queued? {
        HasEdgeIffSource(def, u, v);
      }
      if Ready(def, tasks, v) {
        assert Held(def, tasks, tasks, v);
        var r :| r in RunningSet(tasks);
      } else {
        var u :| u in Sources(def, v) && !tasks[u].status.Terminal();
      }
    } else {
      assert forall v <- tasks.Keys :: v !in QueuedSet(tasks);
    }
  }

  lemma NoDeadlock(def: Definition, order: seq<NodeId>, start: Tasks)
    requires WellFormed(def) && start.Keys == Ids(def) && Covers(order, start) && Acyclic(def)
    ensures var fin := Settle(def, order, start).tasks;
            AllTerminal(fin) || Awaiting(fin)
  {
    SettleCorrect(def, order, start);
    hide Converged, Settle;
    ConvergedNotStuck(def, Settle(def, order, start).tasks);
  }

  // --- The fixpoint is the topological evaluation ----------------------------

  /** The recursive reading of a flow: visit each node once, in the given order, and give it
      its verdict in the light of what was computed so far. */
  function Evaluated(def: Definition, order: seq<NodeId>, start: Tasks): (r: Tasks)
    requires forall v <- order :: v in start
    ensures r.Keys == start.Keys
  {
    if order == [] then start
    else
      var env := Evaluated(def, order[..|order| - 1], start);
      var v := order[|order| - 1];
      env[v := Verdict(def, env, env, env[v], v)]
  }

  /** Every node has its verdict: the equations that define the meaning of a flow. */
  ghost predicate Solution(def: Definition, start: Tasks, fin: Tasks) {
    fin.Keys == start.Keys && SolvedOn(def, start, fin, start.Keys)
  }

  ghost predicate SolvedOn(def: Definition, start: Tasks, fin: Tasks, nodes: set<NodeId>)
    requires fin.Keys == start.Keys
  {
    forall v <- nodes :: v in start && fin[v] == Verdict(def, fin, fin, start[v], v)
  }

  lemma {:induction false} EvaluatedSolves(def: Definition, order: seq<NodeId>, start: Tasks)
    requires Distinct(order) && SourcesFirst(def, order) && forall v <- order :: v in start
    ensures SolvedOn(def, start, Evaluated(def, order, start), set v <- order)
    ensures forall v <- start.Keys :: v !in order ==> Evaluated(def, order, start)[v] == start[v]
  {
    if order != [] {
      var last := |order| - 1;
      var init, w := order[..last], order[last];
      PrefixOrder(def, order);
      EvaluatedSolves(def, init, start);
      var env := Evaluated(def, init, start);
      var fin := Evaluated(def, order, start);
      assert w !in init && fin == env[w := Verdict(def, env, env, start[w], w)];
      hide Verdict, Evaluated, Sources;
      forall v | v in order ensures v in start && fin[v] == Verdict(def, fin, fin, start[v], v) {
        SourcesBefore(def, order, v);
        VerdictDependsOnSources(def, env, fin, start[v], v);
        assert v == w || v in init;
      }
    }
  }

  /** In a sources-first order the last node is a source of none. */
  lemma SourcesBefore(def: Definition, order: seq<NodeId>, v: NodeId)
    requires Distinct(order) && SourcesFirst(def, order) && v in order
    ensures forall u <- Sources(def, v) :: u in order && u != order[|order| - 1]
  {
    var i :| 0 <= i < |order| && order[i] == v;
    assert Sources(def, v) <= set u <- order[..i];
    assert forall u :: u in order[..i] ==> u in order && u != order[|order| - 1];
  }

  lemma PrefixOrder(def: Definition, order: seq<NodeId>)
    requires order != [] && Distinct(order) && SourcesFirst(def, order)
    ensures Distinct(order[..|order| - 1]) && SourcesFirst(def, order[..|order| - 1])
  {
    var init := order[..|order| - 1];
    assert forall i :: 0 <= i < |init| ==> init[..i] == order[..i];
  }

  /** The budget is the only thing that can separate the fixpoint from the evaluation. */
  ghost predicate AgreesOrHeld(def: Definition, start: Tasks, fin: Tasks, sol: Tasks, v: NodeId)
    requires v in start && v in fin && v in sol
  {
    || fin[v] == sol[v]
    || (start[v].status.Queued? && fin[v] == start[v] && sol[v].status.Running?
        && |RunningSet(fin)| >= MaxRunning(def))
  }

  lemma SettledAgrees(def: Definition, start: Tasks, fin: Tasks, sol: Tasks)
    requires WellFormed(def) && start.Keys == Ids(def) && Acyclic(def)
    requires Progress(def, start, fin) && Converged(def, fin) && Solution(def, start, sol)
    ensures forall v <- start.Keys :: AgreesOrHeld(def, start, fin, sol, v)
  {
    hide MaxRunning, RunningSet, Verdict, Ready, Sources, HasEdge, Acyclic, WellFormed, Ids;
    var zone := set v | v in start && !AgreesOrHeld(def, start, fin, sol, v);
    if zone == {} {
      assert forall v <- start.Keys :: v !in zone;
    } else {
      var v := Minimal(def, zone);
      SourcesInIds(def, v);
      forall u | u in Sources(def, v) ensures u in start && AgreesOrHeld(def, start, fin, sol, u) {
        HasEdgeIffSource(def, u, v);
      }
      assert SameSources(def, fin, sol, v);
      VerdictDependsOnSources(def, fin, sol, start[v], v);
      VerdictShape(def, fin, start[v], v);
      hide SameSources;
      NodeSettled(def, start, fin, sol, v);
    }
  }

  lemma NodeSettled(def: Definition, start: Tasks, fin: Tasks, sol: Tasks, v: NodeId)
    requires v in start && Progress(def, start, fin) && Converged(def, fin) && sol.Keys == start.Keys
    requires sol[v] == Verdict(def, fin, fin, start[v], v)
    ensures AgreesOrHeld(def, start, fin, sol, v)
  {
    VerdictShape(def, fin, start[v], v);
    hide Verdict, Ready;
    if fin[v] != sol[v] {
      assert Held(def, fin, fin, v);
    }
  }

  /** Over an acyclic flow the solution of the verdict equations is what `settle` computes,
      exactly when that solution fits the budget. */
  lemma SettleIsSolution(def: Definition, order: seq<NodeId>, start: Tasks, sol: Tasks)
    requires WellFormed(def) && start.Keys == Ids(def) && Covers(order, start) && Acyclic(def)
    requires |RunningSet(start)| <= MaxRunning(def) && Solution(def, start, sol)
    ensures Settle(def, order, start).tasks == sol <==> |RunningSet(sol)| <= MaxRunning(def)
  {
    hide Converged, Progress, Settle, MaxRunning, Verdict, Acyclic, WellFormed, SpawnsAre, SolvedOn;
    var fin := Settle(def, order, start).tasks;
    SettleCorrect(def, order, start);
    ProgressKeys(def, start, fin);
    SettledAgrees(def, start, fin, sol);
    assert RunningSet(fin) <= RunningSet(sol);
    if fin != sol {
      var v :| v in start && fin[v] != sol[v];
      assert v in RunningSet(sol) && v !in RunningSet(fin);
      ProperSubsetSmaller(RunningSet(fin), RunningSet(sol));
    }
  }

  /** The main result on `settle`: its fixpoint is the evaluation of the nodes in any
      topological order, exactly when that evaluation fits the budget. */
  lemma SettleIsEvaluation(def: Definition, order: seq<NodeId>, topological: seq<NodeId>, start: Tasks)
    requires WellFormed(def) && start.Keys == Ids(def) && Covers(order, start) && IsTopological(def, topological)
    requires |RunningSet(start)| <= MaxRunning(def)
    ensures var sol := Evaluated(def, topological, start);
            Settle(def, order, start).tasks == sol <==> |RunningSet(sol)| <= MaxRunning(def)
  {
    hide Settle, Verdict, Acyclic, SourcesFirst, WellFormed;
    EvaluatedSolves(def, topological, start);
    AcyclicIffTopological(def);
    SettleIsSolution(def, order, start, Evaluated(def, topological, start));
  }

  lemma ProperSubsetSmaller(a: set<NodeId>, b: set<NodeId>)
    requires a < b
    ensures |a| < |b|
  {
    assert !(b <= a);
    var x :| x in b && x !in a;
    assert a <= b - {x};
    SubsetNotLarger(a, b - {x});
  }

  lemma SubsetNotLarger(a: set<NodeId>, b: set<NodeId>)
    requires a <= b
    ensures |a| <= |b|
  {
    assert b == a + (b - a);
  }
}
