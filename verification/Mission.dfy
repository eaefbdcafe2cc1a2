/** The mission scheduler as the source runs it: task rows changed in place, a store written
    before every broadcast, and the run loop, each tied to the state machine of `Scheduler`
    (src/mission.rs:684-1348). */
module Mission {
  import opened Text
  import opened Conditions
  import opened JsonText
  import opened Flow
  import opened Graph
  import opened Convergence
  import opened Scheduler

  /** One in-memory task instance. */
  datatype TaskState = TaskState(nodeId: NodeId, task: Task)

  /** The persisted part of a row that the memory must agree with. */
  datatype Row = Row(status: Status, attempt: nat)

  /** A progress broadcast, with the row that the store held when it was sent. */
  datatype Frame = Frame(node: NodeId, sent: Row, stored: Option<Row>)

  function RowOf(t: Task): Row {
    Row(t.status, t.attempt)
  }

  /** The broadcast of a task that the store already holds. */
  function FrameOf(v: NodeId, t: Task): Frame {
    Frame(v, RowOf(t), Some(RowOf(t)))
  }

  // --- Rows and the task map -------------------------------------------------

  function Order(rows: seq<TaskState>): (r: seq<NodeId>)
    ensures |r| == |rows| && forall i :: 0 <= i < |rows| ==> r[i] == rows[i].nodeId
  {
    seq(|rows|, i requires 0 <= i < |rows| => rows[i].nodeId)
  }

  function AsMap(rows: seq<TaskState>): (r: Tasks)
    ensures forall v :: v in r <==> v in Order(rows)
  {
    if rows == [] then map[]
    else
      assert forall v :: v in Order(rows) <==> v in Order(rows[..|rows| - 1]) || v == rows[|rows| - 1].nodeId by {
        assert Order(rows) == Order(rows[..|rows| - 1]) + [rows[|rows| - 1].nodeId];
      }
      AsMap(rows[..|rows| - 1])[rows[|rows| - 1].nodeId := rows[|rows| - 1].task]
  }

  lemma {:induction false} RowInMap(rows: seq<TaskState>, i: nat)
    requires i < |rows| && Distinct(Order(rows))
    ensures rows[i].nodeId in AsMap(rows) && AsMap(rows)[rows[i].nodeId] == rows[i].task
  {
    var last := |rows| - 1;
    assert Order(rows)[i] in Order(rows);
    if i < last {
      PrefixDistinct(rows);
      RowInMap(rows[..last], i);
      assert Order(rows)[i] != Order(rows)[last];
    }
  }

  lemma PrefixDistinct(rows: seq<TaskState>)
    requires rows != [] && Distinct(Order(rows))
    ensures Distinct(Order(rows[..|rows| - 1])) && rows[|rows| - 1].nodeId !in Order(rows[..|rows| - 1])
  {
    assert Order(rows) == Order(rows[..|rows| - 1]) + [rows[|rows| - 1].nodeId];
  }

  lemma UpdateRow(rows: seq<TaskState>, i: nat, t: Task)
    requires i < |rows| && Distinct(Order(rows))
    ensures var next := rows[i := TaskState(rows[i].nodeId, t)];
            Order(next) == Order(rows) && AsMap(next) == AsMap(rows)[rows[i].nodeId := t]
  {
    hide AsMap;
    var next := rows[i := TaskState(rows[i].nodeId, t)];
    assert Order(next) == Order(rows);
    var a, b := AsMap(next), AsMap(rows)[rows[i].nodeId := t];
    assert rows[i].nodeId == Order(rows)[i];
    forall v | v in a ensures v in b && a[v] == b[v] {
      var j :| 0 <= j < |rows| && Order(rows)[j] == v;
      RowInMap(rows, j);
      RowInMap(next, j);
    }
    assert forall v :: v in b ==> v in Order(rows);
  }

  lemma DistinctRows(def: Definition, order: seq<NodeId>)
    requires IsEnumeration(def, order)
    ensures Distinct(order)
  {
  }

  /** Agreement between rows and store. */
  ghost predicate Mirrors(store: map<NodeId, Row>, tasks: Tasks) {
    store.Keys == tasks.Keys && forall v <- tasks.Keys :: store[v] == RowOf(tasks[v])
  }

  /** No broadcast ran ahead of the store. */
  ghost predicate PersistedFirst(frames: seq<Frame>) {
    forall f <- frames :: f.stored == Some(f.sent)
  }

  lemma CountIsRunningSet(rows: seq<TaskState>, count: nat)
    requires rows != [] && Distinct(Order(rows))
    requires count == |RunningSet(AsMap(rows[..|rows| - 1]))|
    ensures |RunningSet(AsMap(rows))| == count + (if rows[|rows| - 1].task.status.Running? then 1 else 0)
  {
    hide RunningSet, AsMap;
    PrefixDistinct(rows);
    LastRow(rows);
    var init, last := AsMap(rows[..|rows| - 1]), rows[|rows| - 1];
    hide Order, Distinct;
    AddRow(init, last.nodeId, last.task);
  }

  lemma NoRows()
    ensures RunningSet(AsMap([])) == {}
  {
  }

  lemma DistinctPrefix(rows: seq<TaskState>, n: nat)
    requires n <= |rows| && Distinct(Order(rows))
    ensures Distinct(Order(rows[..n]))
  {
    assert forall k :: 0 <= k < n ==> Order(rows[..n])[k] == Order(rows)[k];
  }

  lemma LastRow(rows: seq<TaskState>)
    requires rows != []
    ensures AsMap(rows) == AsMap(rows[..|rows| - 1])[rows[|rows| - 1].nodeId := rows[|rows| - 1].task]
  {
  }

  lemma AddRow(tasks: Tasks, v: NodeId, t: Task)
    requires v !in tasks
    ensures |RunningSet(tasks[v := t])| == |RunningSet(tasks)| + (if t.status.Running? then 1 else 0)
  {
    assert RunningSet(tasks[v := t]) == RunningSet(tasks) + (if t.status.Running? then {v} else {});
  }

  datatype Decision = Approve | Feedback | Exclusion

  function ParseDecision(decision: string): Option<Decision> {
    if decision == "approve" then Some(Approve)
    else if decision == "feedback" then Some(Feedback)
    else if decision == "exclude" then Some(Exclusion)
    else None
  }

  datatype Command = Command(node: NodeId, decision: string, feedback: Option<string>)

  /** What one turn of the loop meets: whether a cancellation was requested before it or while
      it settled, the commands already queued, and the event that wakes it at the end. */
  datatype Turn = Turn(cancelBefore: bool, queued: seq<Command>, cancelDuring: bool, wake: Event)

  class MissionScheduler {
    const definition: Definition
    var tokens: map<NodeId, nat>
    var tokenSeq: nat
    var cancelled: bool
    var finished: bool
    var store: map<NodeId, Row>
    var frames: seq<Frame>
    var inflight: multiset<Ticket>
    var issued: seq<Ticket>
    var applied: seq<Ticket>

    constructor (definition: Definition, store: map<NodeId, Row>)
      ensures this.definition == definition && this.store == store
      ensures tokens == map[] && tokenSeq == 0 && !cancelled && !finished && frames == []
      ensures inflight == multiset{} && issued == [] && applied == []
    {
      this.definition := definition;
      this.store := store;
      tokens, tokenSeq, cancelled, finished, frames := map[], 0, false, false, [];
      inflight, issued, applied := multiset{}, [], [];
    }

    ghost predicate Valid(tasks: array<TaskState>)
      reads this`store, this`frames, tasks
    {
      && WellFormed(definition)
      && IsEnumeration(definition, Order(tasks[..]))
      && Mirrors(store, AsMap(tasks[..]))
      && PersistedFirst(frames)
    }

    /** The state machine's view of the scheduler and its rows. */
    ghost function View(tasks: array<TaskState>): Run
      reads this, tasks
    {
      Run(AsMap(tasks[..]), tokens, tokenSeq, inflight, cancelled, finished, issued, applied)
    }

    lemma ValidCovers(tasks: array<TaskState>)
      requires Valid(tasks)
      ensures WellFormed(definition) && Distinct(Order(tasks[..])) && Covers(Order(tasks[..]), AsMap(tasks[..]))
      ensures AsMap(tasks[..]).Keys == Ids(definition)
    {
      RowsCover(definition, tasks[..]);
    }

    // --- Store and events ----------------------------------------------------

    method Persist(v: NodeId, t: Task)
      modifies this`store
      ensures store == old(store)[v := RowOf(t)]
    {
      store := store[v := Row(t.status, t.attempt)];
    }

    method Broadcast(v: NodeId, t: Task)
      requires PersistedFirst(frames) && v in store && store[v] == RowOf(t)
      modifies this`frames
      ensures PersistedFirst(frames) && frames == old(frames) + [FrameOf(v, t)]
    {
      frames := frames + [Frame(v, Row(t.status, t.attempt), if v in store then Some(store[v]) else None)];
    }

    /** Row change, then store. */
    method SetRow(tasks: array<TaskState>, i: nat, t: Task)
      requires Valid(tasks) && i < tasks.Length
      modifies this`store, tasks
      ensures Valid(tasks)
      ensures tasks[..] == old(tasks[..])[i := TaskState(old(tasks[i].nodeId), t)]
      ensures AsMap(tasks[..]) == old(AsMap(tasks[..]))[old(tasks[i].nodeId) := t]
      ensures Order(tasks[..]) == old(Order(tasks[..]))
      ensures old(tasks[i].nodeId) in store && store[old(tasks[i].nodeId)] == RowOf(t)
    {
      hide WellFormed, AsMap, IsEnumeration, PersistedFirst;
      assert Distinct(Order(tasks[..])) by { DistinctRows(definition, Order(tasks[..])); }
      UpdateRow(tasks[..], i, t);
      RowInMap(tasks[..], i);
      var v := tasks[i].nodeId;
      tasks[i] := TaskState(v, t);
      assert tasks[..] == old(tasks[..])[i := TaskState(v, t)];
      Persist(v, t);
    }

    /** Row change, then store, then broadcast. */
    method Transition(tasks: array<TaskState>, i: nat, t: Task)
      requires Valid(tasks) && i < tasks.Length
      modifies this`store, this`frames, tasks
      ensures Valid(tasks)
      ensures tasks[..] == old(tasks[..])[i := TaskState(old(tasks[i].nodeId), t)]
      ensures AsMap(tasks[..]) == old(AsMap(tasks[..]))[old(tasks[i].nodeId) := t]
      ensures Order(tasks[..]) == old(Order(tasks[..]))
      ensures frames == old(frames) + [FrameOf(old(tasks[i].nodeId), t)]
    {
      hide WellFormed, AsMap, IsEnumeration, PersistedFirst, Mirrors, RowOf;
      var v := tasks[i].nodeId;
      SetRow(tasks, i, t);
      Broadcast(v, t);
    }

    /** Broadcasts a row as the store has it. */
    method Announce(tasks: array<TaskState>, v: NodeId, t: Task)
      requires Valid(tasks) && v in AsMap(tasks[..]) && t == AsMap(tasks[..])[v]
      modifies this`frames
      ensures Valid(tasks) && frames == old(frames) + [FrameOf(v, t)]
    {
      hide WellFormed, AsMap, IsEnumeration, PersistedFirst, RowOf;
      Broadcast(v, t);
    }

    method FindTask(tasks: array<TaskState>, v: NodeId) returns (index: Option<nat>)
      requires Distinct(Order(tasks[..]))
      ensures index.None? <==> v !in AsMap(tasks[..])
      ensures index.Some? ==> index.value < tasks.Length && tasks[index.value].nodeId == v
                              && AsMap(tasks[..])[v] == tasks[index.value].task
    {
      for i := 0 to tasks.Length
        invariant forall k :: 0 <= k < i ==> tasks[k].nodeId != v
      {
        if tasks[i].nodeId == v {
          RowInMap(tasks[..], i);
          return Some(i);
        }
      }
      return None;
    }

    // --- Settling ------------------------------------------------------------

    /** The activated `(from, to)` pairs of all succeeded sources. */
    method ActivatedPairs(tasks: array<TaskState>) returns (pairs: set<(NodeId, NodeId)>)
      requires Distinct(Order(tasks[..]))
      ensures forall u, v :: (u, v) in pairs <==>
                HasEdge(definition, u, v) && Fired(definition, AsMap(tasks[..]), u, v)
    {
      hide Activates, AsMap, Order, Distinct;
      pairs := {};
      for i := 0 to |definition.edges|
        invariant forall u, v :: (u, v) in pairs <==>
                    && (exists k :: 0 <= k < i && definition.edges[k].from == u && definition.edges[k].to == v)
                    && Fired(definition, AsMap(tasks[..]), u, v)
      {
        var e := definition.edges[i];
        var found := FindTask(tasks, e.from);
        if found.Some? && tasks[found.value].task.status.Succeeded? {
          var matched := AnyActivatedTo(definition, e.from, e.to, OutputOf(tasks[found.value].task));
          if matched {
            pairs := pairs + {(e.from, e.to)};
          }
        }
      }
    }

    /** Whether no source is still unfinished in the snapshot. */
    method SourcesTerminal(statuses: map<NodeId, Status>, v: NodeId) returns (ready: bool)
      ensures ready <==> forall u <- Sources(definition, v) :: u in statuses && statuses[u].Terminal()
    {
      for i := 0 to |definition.edges|
        invariant forall k :: 0 <= k < i && definition.edges[k].to == v ==>
                    definition.edges[k].from in statuses && statuses[definition.edges[k].from].Terminal()
      {
        var e := definition.edges[i];
        if e.to == v {
          var status := if e.from in statuses then statuses[e.from] else Queued;
          if !status.Terminal() {
            assert e.from in Sources(definition, v);
            return false;
          }
        }
      }
      return true;
    }

    method AnySourceActivated(pairs: set<(NodeId, NodeId)>, v: NodeId) returns (activated: bool)
      ensures activated <==> Sources(definition, v) == {} || exists u <- Sources(definition, v) :: (u, v) in pairs
    {
      var incoming := 0;
      for i := 0 to |definition.edges|
        invariant incoming == 0 <==> forall k :: 0 <= k < i ==> definition.edges[k].to != v
        invariant forall k :: 0 <= k < i && definition.edges[k].to == v ==> (definition.edges[k].from, v) !in pairs
      {
        var e := definition.edges[i];
        if e.to == v {
          incoming := incoming + 1;
          if (e.from, v) in pairs {
            assert e.from in Sources(definition, v);
            return true;
          }
        }
      }
      if incoming > 0 {
        var k :| 0 <= k < |definition.edges| && definition.edges[k].to == v;
        assert definition.edges[k].from in Sources(definition, v);
      }
      return incoming == 0;
    }

    method CountRunning(tasks: array<TaskState>) returns (count: nat)
      requires Distinct(Order(tasks[..]))
      ensures count == |RunningSet(AsMap(tasks[..]))|
    {
      hide *;
      count := 0;
      assert tasks[..0] == [];
      NoRows();
      for i := 0 to tasks.Length
        invariant count == |RunningSet(AsMap(tasks[..i]))|
      {
        assert tasks[..i + 1][..i] == tasks[..i];
        assert tasks[..i + 1] == tasks[..][..i + 1];
        DistinctPrefix(tasks[..], i + 1);
        CountIsRunningSet(tasks[..i + 1], count);
        if tasks[i].task.status.Running? {
          count := count + 1;
        }
      }
      assert tasks[..tasks.Length] == tasks[..];
    }

    /** The outputs of succeeded sources, gathered edge by edge. */
    method GatherUpstream(tasks: array<TaskState>, v: NodeId) returns (upstream: Json)
      requires Distinct(Order(tasks[..]))
      ensures upstream == Upstream(definition, AsMap(tasks[..]), v)
    {
      hide AsMap, Order, Distinct, Insert;
      var items: seq<Member> := [];
      ghost var live := AsMap(tasks[..]);
      assert definition.edges[..0] == [];
      for i := 0 to |definition.edges|
        invariant items == Gathered(definition.edges[..i], live, v)
      {
        var e := definition.edges[i];
        assert definition.edges[..i + 1][..i] == definition.edges[..i];
        if e.to == v {
          var found := FindTask(tasks, e.from);
          if found.Some? && tasks[found.value].task.status.Succeeded? && tasks[found.value].task.output.Some? {
            items := Insert(items, Member(e.from, tasks[found.value].task.output.value));
          }
        }
      }
      assert definition.edges[..|definition.edges|] == definition.edges;
      return ObjectOf(items);
    }

    /** One row of a pass, judged against the pass's snapshot. */
    method SettleRow(tasks: array<TaskState>, i: nat, ghost snap: Tasks,
                     statuses: map<NodeId, Status>, pairs: set<(NodeId, NodeId)>)
      returns (changed: bool, spawned: bool)
      requires Valid(tasks) && i < tasks.Length
      requires statuses.Keys == snap.Keys && forall u <- snap.Keys :: statuses[u] == snap[u].status
      requires forall u, v :: (u, v) in pairs <==> HasEdge(definition, u, v) && Fired(definition, snap, u, v)
      modifies this`store, this`frames, tasks
      ensures Valid(tasks) && Order(tasks[..]) == old(Order(tasks[..]))
      ensures var live := old(AsMap(tasks[..]));
              var v := old(tasks[i].nodeId);
              && v in live
              && AsMap(tasks[..]) == live[v := Decide(definition, snap, live, v)]
              && (changed <==> AsMap(tasks[..]) != live)
              && (spawned <==> Decide(definition, snap, live, v).status.Running? && !live[v].status.Running?)
    {
      hide AsMap, WellFormed, Mirrors, PersistedFirst, Activates, MaxRunning, Upstream;
      ghost var live := AsMap(tasks[..]);
      RowInMap(tasks[..], i);
      var v := tasks[i].nodeId;
      var t := tasks[i].task;
      if !t.status.Queued? {
        assert live == live[v := t];
        return false, false;
      }
      var ready := SourcesTerminal(statuses, v);
      if !ready {
        assert live == live[v := t];
        return false, false;
      }
      assert Ready(definition, snap, v);
      var activated := AnySourceActivated(pairs, v);
      assert activated <==> Activated(definition, snap, v) by { PairsGiveActivation(definition, snap, pairs, v); }
      hide Ready, Activated, Fired, HasEdge;
      if !activated {
        Transition(tasks, i, t.(status := Cancelled));
        return true, false;
      }
      match NodeOf(definition.nodes, v) {
        case None =>
          assert live == live[v := t];
          return false, false;
        case Some(n) =>
          match n.kind {
            case Input =>
              var value := if n.value.Some? then n.value.value else Null;
              Transition(tasks, i, t.(status := Succeeded, output := Some(value)));
              return true, false;
            case Output =>
              var upstream := GatherUpstream(tasks, v);
              Transition(tasks, i, t.(status := Succeeded, output := Some(upstream)));
              return true, false;
            case Human =>
              Transition(tasks, i, t.(status := WaitingHuman));
              return true, false;
            case Agent =>
              var running := CountRunning(tasks);
              if running >= MaxRunning(definition) {
                assert live == live[v := t];
                return false, false;
              }
              Transition(tasks, i, t.(status := Running));
              return true, true;
          }
      }
    }

    /** One pass over the rows; reports the agents it set running. */
    method SettlePass(tasks: array<TaskState>) returns (changed: bool, spawns: seq<NodeId>)
      requires Valid(tasks)
      modifies this`store, this`frames, tasks
      ensures Valid(tasks) && Order(tasks[..]) == old(Order(tasks[..]))
      ensures var order := Order(tasks[..]);
              var snap := old(AsMap(tasks[..]));
              && Covers(order, snap)
              && Settled(AsMap(tasks[..]), spawns) == Pass(definition, order, snap)
              && (changed <==> AsMap(tasks[..]) != snap)
    {
      hide *;
      ghost var snap := AsMap(tasks[..]);
      ghost var order := Order(tasks[..]);
      ValidCovers(tasks);
      CoversDistinct(order, snap);
      var pairs := ActivatedPairs(tasks);
      var statuses := Statuses(tasks);
      changed, spawns := false, [];
      assert order[..0] == [];
      PassOfNothing(definition, snap);
      for i := 0 to tasks.Length
        invariant Valid(tasks) && Order(tasks[..]) == order
        invariant Settled(AsMap(tasks[..]), spawns) == Pass(definition, order[..i], snap)
        invariant AsMap(tasks[..]).Keys == snap.Keys
        invariant if changed then |QueuedSet(AsMap(tasks[..]))| < |QueuedSet(snap)| else AsMap(tasks[..]) == snap
      {
        ghost var live := AsMap(tasks[..]);
        assert tasks[i].nodeId == order[i];
        PassExtends(definition, order, i, snap);
        DecideLeavesQueue(definition, snap, live, order[i]);
        var rowChanged, spawned := SettleRow(tasks, i, snap, statuses, pairs);
        if spawned {
          spawns := spawns + [tasks[i].nodeId];
        }
        if rowChanged {
          changed := true;
        }
      }
      assert order[..tasks.Length] == order;
    }

    method Statuses(tasks: array<TaskState>) returns (statuses: map<NodeId, Status>)
      requires Distinct(Order(tasks[..]))
      ensures var snap := AsMap(tasks[..]);
              statuses.Keys == snap.Keys && forall u <- snap.Keys :: statuses[u] == snap[u].status
    {
      hide AsMap;
      statuses := map[];
      for i := 0 to tasks.Length
        invariant forall u :: u in statuses <==> u in Order(tasks[..])[..i]
        invariant forall u <- statuses.Keys :: u in AsMap(tasks[..]) && statuses[u] == AsMap(tasks[..])[u].status
      {
        RowInMap(tasks[..], i);
        assert Order(tasks[..])[..i + 1] == Order(tasks[..])[..i] + [tasks[i].nodeId];
        statuses := statuses[tasks[i].nodeId := tasks[i].task.status];
      }
      assert Order(tasks[..])[..tasks.Length] == Order(tasks[..]);
    }

    /** `settle`: passes until one changes nothing. */
    method SettleAll(tasks: array<TaskState>) returns (spawns: seq<NodeId>)
      requires Valid(tasks)
      modifies this`store, this`frames, tasks
      ensures Valid(tasks) && Order(tasks[..]) == old(Order(tasks[..]))
      ensures var order := Order(tasks[..]);
              var start := old(AsMap(tasks[..]));
              Covers(order, start) && Settled(AsMap(tasks[..]), spawns) == Settle(definition, order, start)
    {
      hide *;
      ghost var order := Order(tasks[..]);
      ghost var start := AsMap(tasks[..]);
      ValidCovers(tasks);
      spawns := [];
      var changed := true;
      while changed
        invariant Valid(tasks) && Order(tasks[..]) == order && Covers(order, AsMap(tasks[..]))
        invariant var rest := Settle(definition, order, AsMap(tasks[..]));
                  Settle(definition, order, start) == Settled(rest.tasks, spawns + rest.spawns)
        invariant !changed ==> Pass(definition, order, AsMap(tasks[..])).tasks == AsMap(tasks[..])
        decreases QueuedSet(AsMap(tasks[..])), changed
      {
        ghost var before := AsMap(tasks[..]);
        PassShrinksQueue(definition, order, before);
        SettleOneMore(definition, order, before, spawns);
        var more;
        changed, more := SettlePass(tasks);
        spawns := spawns + more;
        ValidCovers(tasks);
      }
      SettleAtFixpoint(definition, order, AsMap(tasks[..]), spawns);
    }

    // --- Executor outcomes ---------------------------------------------------

    /** Spawns the ready agents, giving each execution the next token. */
    method SpawnAgents(tasks: array<TaskState>, spawns: seq<NodeId>)
      requires Valid(tasks) && forall v <- spawns :: v in AsMap(tasks[..])
      modifies this`tokens, this`tokenSeq, this`inflight, this`issued
      ensures Valid(tasks) && View(tasks) == SpawnAll(old(View(tasks)), spawns)
    {
      hide *;
      ghost var start := View(tasks);
      ViewIs(tasks);
      assert spawns[..0] == [];
      SpawnNothing(start);
      for i := 0 to |spawns|
        invariant Valid(tasks) && AsMap(tasks[..]) == start.tasks
        invariant View(tasks) == SpawnAll(start, spawns[..i])
      {
        assert spawns[..i + 1][..i] == spawns[..i];
        var v := spawns[i];
        ValidCovers(tasks);
        var found := FindTask(tasks, v);
        var k := Ticket(v, tokenSeq + 1, tasks[found.value].task.attempt);
        SpawnOneMore(start, spawns[..i + 1]);
        Spawn(tasks, k);
      }
      assert spawns[..|spawns|] == spawns;
    }

    lemma ViewIs(tasks: array<TaskState>)
      ensures View(tasks) ==
              Run(AsMap(tasks[..]), tokens, tokenSeq, inflight, cancelled, finished, issued, applied)
    {
    }

    method Spawn(tasks: array<TaskState>, k: Ticket)
      requires Valid(tasks) && k.node in AsMap(tasks[..])
      requires k == Ticket(k.node, tokenSeq + 1, AsMap(tasks[..])[k.node].attempt)
      modifies this`tokens, this`tokenSeq, this`inflight, this`issued
      ensures Valid(tasks) && View(tasks) == SpawnNode(old(View(tasks)), k.node)
    {
      hide *;
      ghost var s, rows := View(tasks), tasks[..];
      ViewIs(tasks);
      SpawnIs(s, k.node);
      tokenSeq := tokenSeq + 1;
      tokens := tokens[k.node := tokenSeq];
      inflight := inflight + multiset{k};
      issued := issued + [k];
      assert tasks[..] == rows;
      ViewIs(tasks);
    }

    /** Receives one execution's outcome; late and superseded ones are dropped. */
    method ApplyCompletion(tasks: array<TaskState>, k: Ticket, outcome: Outcome)
      requires Valid(tasks)
      modifies this`inflight, this`applied, this`store, this`frames, tasks
      ensures Valid(tasks) && Order(tasks[..]) == old(Order(tasks[..]))
      ensures View(tasks) == CompleteStep(definition, old(View(tasks)), k, outcome)
      ensures AsMap(tasks[..]) == old(AsMap(tasks[..])) ==> frames == old(frames)
      ensures AsMap(tasks[..]) != old(AsMap(tasks[..])) ==>
                k.node in AsMap(tasks[..]) && frames == old(frames) + [FrameOf(k.node, AsMap(tasks[..])[k.node])]
    {
      hide *;
      ghost var s, rows := View(tasks), tasks[..];
      ViewIs(tasks);
      ValidCovers(tasks);
      CompleteCases(definition, s, k, outcome);
      inflight := inflight - multiset{k};
      assert tasks[..] == rows;
      if k.node in tokens && tokens[k.node] == k.token && !cancelled {
        var found := FindTask(tasks, k.node);
        if found.Some? && tasks[found.value].task.status.Running? && NodeOf(definition.nodes, k.node).Some? {
          applied := applied + [k];
          assert tasks[..] == rows;
          OutcomeChanges(definition, AsMap(tasks[..]), k.node, outcome);
          Transition(tasks, found.value, AfterOutcome(definition, tasks[found.value].task, outcome));
        }
      }
      ViewIs(tasks);
    }

    // --- Human decisions -----------------------------------------------------

    method ApplyRespond(tasks: array<TaskState>, v: NodeId, decision: string, feedback: Option<string>)
      requires Valid(tasks)
      modifies this`tokens, this`store, this`frames, tasks
      ensures Valid(tasks) && Order(tasks[..]) == old(Order(tasks[..]))
      ensures View(tasks) == RespondStep(definition, old(View(tasks)), v, decision, feedback)
      ensures AsMap(tasks[..]) == old(AsMap(tasks[..])) ==> frames == old(frames)
      ensures AsMap(tasks[..]) != old(AsMap(tasks[..])) ==>
                v in AsMap(tasks[..]) && frames == old(frames) + [FrameOf(v, AsMap(tasks[..])[v])]
    {
      hide *;
      ghost var s := View(tasks);
      ViewIs(tasks);
      ValidCovers(tasks);
      RespondCases(definition, s, v, decision, feedback);
      var found := FindTask(tasks, v);
      if found.Some? && NodeOf(definition.nodes, v).Some? {
        var t := tasks[found.value].task;
        match ParseDecision(decision) {
          case Some(Approve) =>
            if t.status.WaitingHuman? {
              DecisionChanges(definition, s.tasks, v, t.(status := Succeeded, output := Some(Approved())));
              Transition(tasks, found.value, t.(status := Succeeded, output := Some(Approved())));
            }
          case Some(Feedback) =>
            if t.status.WaitingHuman? {
              DecisionChanges(definition, s.tasks, v, t.(status := Queued, attempt := t.attempt + 1));
              Transition(tasks, found.value, t.(status := Queued, attempt := t.attempt + 1));
            }
          case Some(Exclusion) =>
            if Excludable(t) {
              ExcludeDecided(tasks, found.value);
            }
          case None =>
        }
      }
      ViewIs(tasks);
    }

    /** Excludes the branch of a row, then broadcasts that row alone. */
    method ExcludeDecided(tasks: array<TaskState>, i: nat)
      requires Valid(tasks) && i < tasks.Length && Excludable(tasks[i].task)
      modifies this`tokens, this`store, this`frames, tasks
      ensures Valid(tasks) && Order(tasks[..]) == old(Order(tasks[..]))
      ensures var v := old(tasks[i].nodeId);
              && AsMap(tasks[..]) == ExcludeBranch(definition, old(AsMap(tasks[..])), v)
              && AsMap(tasks[..]) != old(AsMap(tasks[..]))
              && tokens == ExcludeTokens(old(AsMap(tasks[..])), AsMap(tasks[..]), old(tokens))
              && v in AsMap(tasks[..]) && frames == old(frames) + [FrameOf(v, AsMap(tasks[..])[v])]
    {
      hide *;
      var v := tasks[i].nodeId;
      ValidCovers(tasks);
      CoversDistinct(Order(tasks[..]), AsMap(tasks[..]));
      OrderAt(tasks[..], i);
      RowInMap(tasks[..], i);
      DecisionChanges(definition, AsMap(tasks[..]), v, tasks[i].task);
      Exclude(tasks, v);
      ValidCovers(tasks);
      OrderAt(tasks[..], i);
      RowInMap(tasks[..], i);
      Announce(tasks, v, tasks[i].task);
    }

    /** Excludes the branch below `root`: closure first, then one sweep over the rows. */
    method Exclude(tasks: array<TaskState>, root: NodeId)
      requires Valid(tasks)
      modifies this`tokens, this`store, tasks
      ensures Valid(tasks) && Order(tasks[..]) == old(Order(tasks[..]))
      ensures AsMap(tasks[..]) == ExcludeBranch(definition, old(AsMap(tasks[..])), root)
      ensures tokens == ExcludeTokens(old(AsMap(tasks[..])), AsMap(tasks[..]), old(tokens))
    {
      hide *;
      ghost var before := AsMap(tasks[..]);
      ghost var order := Order(tasks[..]);
      ghost var given := tokens;
      ValidCovers(tasks);
      CoversDistinct(order, before);
      var excluded := Downstream(definition, root);
      ghost var rewrite := (v, t) => WithExclusion(excluded, v, t);
      assert order[..0] == [];
      RewriteNone(before, rewrite);
      TokensOfNoChange(before, given);
      for i := 0 to tasks.Length
        invariant Valid(tasks) && Order(tasks[..]) == order
        invariant AsMap(tasks[..]) == Rewritten(before, rewrite, order[..i])
        invariant tokens == ExcludeTokens(before, AsMap(tasks[..]), given)
      {
        OrderAt(tasks[..], i);
        RowInMap(tasks[..], i);
        RewriteOne(before, rewrite, order, i);
        var v := tasks[i].nodeId;
        var t := tasks[i].task;
        var next := WithExclusion(excluded, v, t);
        ghost var cur := AsMap(tasks[..]);
        TokensOfChange(before, cur, v, next, given);
        if next != t {
          SetRow(tasks, i, next);
          if v !in tokens {
            tokens := tokens[v := 0];
          }
        }
        assert AsMap(tasks[..]) == cur[v := next];
      }
      OrderLength(tasks[..]);
      assert order[..tasks.Length] == order;
      RewriteExcludes(definition, before, rewrite, order, excluded, root);
    }

    // --- Cancellation --------------------------------------------------------

    /** Poisons every token, then settles the unfinished rows as cancelled. */
    method CancelAll(tasks: array<TaskState>)
      requires Valid(tasks)
      modifies this`tokens, this`tokenSeq, this`finished, this`store, tasks
      ensures Valid(tasks) && Order(tasks[..]) == old(Order(tasks[..]))
      ensures View(tasks) == StopStep(old(View(tasks)))
    {
      hide *;
      ghost var start := View(tasks);
      ViewIs(tasks);
      tokenSeq := tokenSeq + 1;
      tokens := map v | v in tokens :: tokenSeq;
      CancelRows(tasks);
      finished := true;
      ViewIs(tasks);
      StopView(start, View(tasks));
    }

    method CancelRows(tasks: array<TaskState>)
      requires Valid(tasks)
      modifies this`store, tasks
      ensures Valid(tasks) && Order(tasks[..]) == old(Order(tasks[..]))
      ensures AsMap(tasks[..]) == CancelTasks(old(AsMap(tasks[..])))
    {
      hide *;
      ghost var before := AsMap(tasks[..]);
      ghost var order := Order(tasks[..]);
      ValidCovers(tasks);
      CoversDistinct(order, before);
      ghost var rewrite := (v: NodeId, t: Task) => WithCancellation(t);
      assert order[..0] == [];
      RewriteNone(before, rewrite);
      for i := 0 to tasks.Length
        invariant Valid(tasks) && Order(tasks[..]) == order
        invariant AsMap(tasks[..]) == Rewritten(before, rewrite, order[..i])
      {
        OrderAt(tasks[..], i);
        RowInMap(tasks[..], i);
        RewriteOne(before, rewrite, order, i);
        var t := tasks[i].task;
        var next := WithCancellation(t);
        if next != t {
          SetRow(tasks, i, next);
        } else {
          SameEntry(AsMap(tasks[..]), tasks[i].nodeId);
        }
      }
      OrderLength(tasks[..]);
      assert order[..tasks.Length] == order;
      RewriteCancels(before, rewrite, order);
    }

    // --- The loop ------------------------------------------------------------

    /** The scheduler and its rows are where `trace` leads the state machine. */
    ghost predicate Follows(tasks: array<TaskState>, trace: seq<Event>)
      reads this, tasks
    {
      && Valid(tasks) && IsRun(definition, Order(tasks[..]), trace)
      && View(tasks) == After(definition, Order(tasks[..]), trace)
    }

    /** One performed operation extends the trace by one event. */
    lemma FollowsStep(tasks: array<TaskState>, order: seq<NodeId>, trace: seq<Event>, before: Run, ev: Event)
      requires WellFormed(definition) && IsEnumeration(definition, order) && IsRun(definition, order, trace)
      requires before == After(definition, order, trace) && Enabled(before, ev)
      requires Valid(tasks) && Order(tasks[..]) == order && View(tasks) == Step(definition, order, before, ev)
      ensures Follows(tasks, trace + [ev])
    {
      hide Step, Enabled, WellFormed, Valid, View, IsEnumeration;
      assert (trace + [ev])[..|trace + [ev]| - 1] == trace;
    }

    lemma FollowsMeans(tasks: array<TaskState>, trace: seq<Event>)
      requires Follows(tasks, trace)
      ensures Valid(tasks) && WellFormed(definition) && IsEnumeration(definition, Order(tasks[..]))
      ensures Covers(Order(tasks[..]), AsMap(tasks[..])) && AsMap(tasks[..]).Keys == Ids(definition)
      ensures IsRun(definition, Order(tasks[..]), trace)
      ensures View(tasks) == After(definition, Order(tasks[..]), trace)
    {
      ValidCovers(tasks);
    }

    method AllRowsTerminal(tasks: array<TaskState>) returns (all: bool)
      requires Distinct(Order(tasks[..]))
      ensures all <==> AllTerminal(AsMap(tasks[..]))
    {
      hide AsMap;
      for i := 0 to tasks.Length
        invariant forall k :: 0 <= k < i ==> tasks[k].task.status.Terminal()
      {
        if !tasks[i].task.status.Terminal() {
          RowInMap(tasks[..], i);
          return false;
        }
      }
      forall v | v in AsMap(tasks[..]) ensures AsMap(tasks[..])[v].status.Terminal() {
        var i :| 0 <= i < tasks.Length && Order(tasks[..])[i] == v;
        RowInMap(tasks[..], i);
      }
      return true;
    }

    /** Settle, then finish or spawn. */
    method SettleTurn(tasks: array<TaskState>, ghost trace: seq<Event>)
      requires Follows(tasks, trace) && !finished
      modifies this, tasks
      ensures Follows(tasks, trace + [SettleNow]) && cancelled == old(cancelled)
      ensures Order(tasks[..]) == old(Order(tasks[..]))
    {
      hide *;
      ghost var before := View(tasks);
      ghost var order := Order(tasks[..]);
      FollowsMeans(tasks, trace);
      ViewIs(tasks);
      var spawns := SettleAll(tasks);
      ViewIs(tasks);
      ValidCovers(tasks);
      SettleCases(definition, order, before);
      var all := AllRowsTerminal(tasks);
      if all {
        finished := true;
      } else {
        SpawnAgents(tasks, spawns);
      }
      ViewIs(tasks);
      FollowsStep(tasks, order, trace, before, SettleNow);
    }

    method RespondTurn(tasks: array<TaskState>, c: Command, ghost trace: seq<Event>)
      requires Follows(tasks, trace) && !finished
      modifies this`tokens, this`store, this`frames, tasks
      ensures Follows(tasks, trace + [Respond(c.node, c.decision, c.feedback)])
      ensures Order(tasks[..]) == old(Order(tasks[..]))
    {
      hide *;
      ghost var before := View(tasks);
      FollowsMeans(tasks, trace);
      ViewIs(tasks);
      ApplyRespond(tasks, c.node, c.decision, c.feedback);
      EventCases(definition, Order(tasks[..]), before);
      FollowsStep(tasks, Order(tasks[..]), trace, before, Respond(c.node, c.decision, c.feedback));
    }

    method CompletionTurn(tasks: array<TaskState>, k: Ticket, outcome: Outcome, ghost trace: seq<Event>)
      requires Follows(tasks, trace) && k in inflight
      modifies this`inflight, this`applied, this`store, this`frames, tasks
      ensures Follows(tasks, trace + [Complete(k, outcome)])
      ensures Order(tasks[..]) == old(Order(tasks[..]))
    {
      hide *;
      ghost var before := View(tasks);
      FollowsMeans(tasks, trace);
      ViewIs(tasks);
      ApplyCompletion(tasks, k, outcome);
      EventCases(definition, Order(tasks[..]), before);
      FollowsStep(tasks, Order(tasks[..]), trace, before, Complete(k, outcome));
    }

    method CancelRequested(tasks: array<TaskState>, ghost trace: seq<Event>)
      requires Follows(tasks, trace)
      modifies this`cancelled
      ensures cancelled && Follows(tasks, trace + [RequestCancel])
      ensures Order(tasks[..]) == old(Order(tasks[..]))
    {
      hide *;
      ghost var before := View(tasks);
      FollowsMeans(tasks, trace);
      ViewIs(tasks);
      cancelled := true;
      ViewIs(tasks);
      EventCases(definition, Order(tasks[..]), before);
      FollowsStep(tasks, Order(tasks[..]), trace, before, RequestCancel);
    }

    method StopTurn(tasks: array<TaskState>, ghost trace: seq<Event>)
      requires Follows(tasks, trace) && cancelled && !finished
      modifies this, tasks
      ensures finished && Follows(tasks, trace + [Stop])
      ensures Order(tasks[..]) == old(Order(tasks[..]))
    {
      hide *;
      ghost var before := View(tasks);
      FollowsMeans(tasks, trace);
      ViewIs(tasks);
      CancelAll(tasks);
      ViewIs(tasks);
      EventCases(definition, Order(tasks[..]), before);
      FollowsStep(tasks, Order(tasks[..]), trace, before, Stop);
    }

    lemma FollowsState(tasks: array<TaskState>, trace: seq<Event>)
      requires Follows(tasks, trace)
      ensures WellFormed(definition) && IsEnumeration(definition, Order(tasks[..]))
      ensures var s := After(definition, Order(tasks[..]), trace);
              finished == s.finished && cancelled == s.cancelled && inflight == s.inflight
    {
      FollowsMeans(tasks, trace);
    }

    /** The run loop against a script of turns. Whatever the script, the scheduler performs the events
        that the loop's order of checks calls for, and stays on a run of the state machine, so that
        every theorem about runs holds of its rows and tokens. */
    method RunTurns(tasks: array<TaskState>, turns: seq<Turn>) returns (ghost trace: seq<Event>)
      requires Valid(tasks) && View(tasks) == Initial(definition)
      modifies this, tasks
      ensures Follows(tasks, trace) && Order(tasks[..]) == old(Order(tasks[..]))
      ensures WellFormed(definition) && IsEnumeration(definition, Order(tasks[..]))
      ensures trace == LoopFrom(definition, Order(tasks[..]), [], turns)
    {
      hide *;
      trace := [];
      FreshFollows(tasks);
      FollowsState(tasks, trace);
      ghost var order := Order(tasks[..]);
      assert turns[0..] == turns;
      for i := 0 to |turns|
        invariant Follows(tasks, trace) && Order(tasks[..]) == order
        invariant WellFormed(definition) && IsEnumeration(definition, order)
        invariant LoopFrom(definition, order, [], turns) == LoopFrom(definition, order, trace, turns[i..])
      {
        var turn := turns[i];
        assert turns[i..][0] == turn && turns[i..][1..] == turns[i + 1..];
        LoopCases(definition, order, trace, turns[i..]);
        FollowsState(tasks, trace);
        if finished {
          return;
        }
        if turn.cancelBefore {
          CancelRequested(tasks, trace);
          trace := trace + [RequestCancel];
        }
        FollowsState(tasks, trace);
        if cancelled {
          StopTurn(tasks, trace);
          trace := trace + [Stop];
          return;
        }
        ghost var before := trace;
        RespondsNone(before);
        assert turn.queued[..0] == [];
        for j := 0 to |turn.queued|
          invariant Follows(tasks, trace) && Order(tasks[..]) == order && !finished
          invariant trace == before + Responds(turn.queued[..j])
        {
          var c := turn.queued[j];
          RespondsStep(before, turn.queued, j);
          RespondTurn(tasks, c, trace);
          trace := trace + [Respond(c.node, c.decision, c.feedback)];
        }
        assert turn.queued[..|turn.queued|] == turn.queued;
        if turn.cancelDuring {
          CancelRequested(tasks, trace);
          trace := trace + [RequestCancel];
        }
        SettleTurn(tasks, trace);
        trace := trace + [SettleNow];
        FollowsState(tasks, trace);
        if finished {
          return;
        }
        match turn.wake {
          case Complete(k, outcome) =>
            if k in inflight {
              CompletionTurn(tasks, k, outcome, trace);
              trace := trace + [Complete(k, outcome)];
            }
          case Respond(v, decision, feedback) =>
            RespondTurn(tasks, Command(v, decision, feedback), trace);
            trace := trace + [Respond(v, decision, feedback)];
          case RequestCancel =>
            CancelRequested(tasks, trace);
            trace := trace + [RequestCancel];
          case _ =>
        }
      }
      LoopEnds(definition, order, trace);
    }

    lemma FreshFollows(tasks: array<TaskState>)
      requires Valid(tasks) && View(tasks) == Initial(definition)
      ensures Follows(tasks, [])
    {
    }
  }

  // --- The order of checks in the loop ----------------------------------------

  function Responds(commands: seq<Command>): seq<Event> {
    if commands == [] then []
    else
      var last := |commands| - 1;
      var c := commands[last];
      Responds(commands[..last]) + [Respond(c.node, c.decision, c.feedback)]
  }

  /** What wakes the loop in a state: an outstanding outcome, a command, or the cancellation. */
  predicate Wakes(s: Run, wake: Event) {
    wake.Respond? || wake.RequestCancel? || (wake.Complete? && wake.ticket in s.inflight)
  }

  /** The events of a run of the loop: cancellation is looked at first, then the queued commands are
      applied, then the rows are settled, and the loop waits for one event unless the run is over. */
  ghost function LoopFrom(def: Definition, order: seq<NodeId>, trace: seq<Event>, turns: seq<Turn>): seq<Event>
    requires WellFormed(def) && IsEnumeration(def, order)
    decreases |turns|
  {
    if turns == [] || After(def, order, trace).finished then trace
    else
      var turn := turns[0];
      var checked := if turn.cancelBefore then trace + [RequestCancel] else trace;
      if After(def, order, checked).cancelled then checked + [Stop]
      else
        var settled := SettledTurn(checked, turn);
        if After(def, order, settled).finished then settled
        else
          var woken := if Wakes(After(def, order, settled), turn.wake) then settled + [turn.wake] else settled;
          LoopFrom(def, order, woken, turns[1..])
  }

  ghost function SettledTurn(checked: seq<Event>, turn: Turn): seq<Event> {
    (if turn.cancelDuring then checked + Responds(turn.queued) + [RequestCancel] else checked + Responds(turn.queued))
    + [SettleNow]
  }

  lemma LoopCases(def: Definition, order: seq<NodeId>, trace: seq<Event>, turns: seq<Turn>)
    requires WellFormed(def) && IsEnumeration(def, order) && turns != []
    ensures var turn := turns[0];
            var checked := if turn.cancelBefore then trace + [RequestCancel] else trace;
            var answered := checked + Responds(turn.queued);
            var settled := (if turn.cancelDuring then answered + [RequestCancel] else answered) + [SettleNow];
            LoopFrom(def, order, trace, turns) ==
            if After(def, order, trace).finished then trace
            else if After(def, order, checked).cancelled then checked + [Stop]
            else if After(def, order, settled).finished then settled
            else
              LoopFrom(def, order,
                       (match turn.wake
                        case Complete(k, outcome) =>
                          if k in After(def, order, settled).inflight then settled + [Complete(k, outcome)] else settled
                        case Respond(v, decision, feedback) => settled + [Respond(v, decision, feedback)]
                        case RequestCancel => settled + [RequestCancel]
                        case _ => settled),
                       turns[1..])
  {
    hide After, WellFormed, IsEnumeration, Responds;
  }

  lemma LoopEnds(def: Definition, order: seq<NodeId>, trace: seq<Event>)
    requires WellFormed(def) && IsEnumeration(def, order)
    ensures LoopFrom(def, order, trace, []) == trace
  {
  }

  lemma RespondsStep(before: seq<Event>, commands: seq<Command>, j: nat)
    requires j < |commands|
    ensures var c := commands[j];
            before + Responds(commands[..j + 1]) ==
            (before + Responds(commands[..j])) + [Respond(c.node, c.decision, c.feedback)]
  {
    assert commands[..j + 1][..j] == commands[..j];
  }

  lemma RespondsNone(before: seq<Event>)
    ensures before + Responds([]) == before
  {
  }

  lemma SettleCases(def: Definition, order: seq<NodeId>, s: Run)
    requires WellFormed(def) && s.tasks.Keys == Ids(def) && IsEnumeration(def, order) && Covers(order, s.tasks)
    ensures !s.finished ==> Enabled(s, SettleNow)
    ensures var settled := Settle(def, order, s.tasks);
            && (forall v <- settled.spawns :: v in settled.tasks)
            && Step(def, order, s, SettleNow) ==
               if AllTerminal(settled.tasks) then s.(tasks := settled.tasks, finished := true)
               else SpawnAll(s.(tasks := settled.tasks), settled.spawns)
  {
    hide WellFormed, Settle, AllTerminal, SpawnAll;
  }

  /** The steps other than settling, by name. */
  lemma EventCases(def: Definition, order: seq<NodeId>, s: Run)
    requires WellFormed(def) && s.tasks.Keys == Ids(def) && IsEnumeration(def, order)
    ensures forall v, decision, feedback ::
              && (!s.finished ==> Enabled(s, Respond(v, decision, feedback)))
              && Step(def, order, s, Respond(v, decision, feedback)) == RespondStep(def, s, v, decision, feedback)
    ensures forall k, outcome ::
              && (k in s.inflight ==> Enabled(s, Complete(k, outcome)))
              && Step(def, order, s, Complete(k, outcome)) == CompleteStep(def, s, k, outcome)
    ensures Enabled(s, RequestCancel) && Step(def, order, s, RequestCancel) == s.(cancelled := true)
    ensures s.cancelled && !s.finished ==> Enabled(s, Stop)
    ensures Step(def, order, s, Stop) == StopStep(s) && StopStep(s).finished
  {
    hide WellFormed, RespondStep, CompleteStep;
  }

  lemma PairsGiveActivation(def: Definition, snap: Tasks, pairs: set<(NodeId, NodeId)>, v: NodeId)
    requires forall u, w :: (u, w) in pairs <==> HasEdge(def, u, w) && Fired(def, snap, u, w)
    ensures (Sources(def, v) == {} || exists u <- Sources(def, v) :: (u, v) in pairs) <==> Activated(def, snap, v)
  {
    hide Fired;
    assert forall u :: HasEdge(def, u, v) <==> u in Sources(def, v);
  }

  lemma RowsCover(def: Definition, rows: seq<TaskState>)
    requires IsEnumeration(def, Order(rows))
    ensures Covers(Order(rows), AsMap(rows)) && AsMap(rows).Keys == Ids(def)
  {
    hide AsMap;
    assert forall v :: v in Order(rows) <==> v in (set x <- Order(rows));
  }

  /** A row that changes leaves the queue. */
  lemma DecideLeavesQueue(def: Definition, snap: Tasks, live: Tasks, v: NodeId)
    requires v in live
    ensures var next := live[v := Decide(def, snap, live, v)];
            next == live || |QueuedSet(next)| < |QueuedSet(live)|
  {
    hide Ready, Activated, NodeOf, MaxRunning, RunningSet, Upstream;
    var next := live[v := Decide(def, snap, live, v)];
    if Decide(def, snap, live, v) == live[v] {
      assert next == live;
    } else {
      assert v in QueuedSet(live) && QueuedSet(next) == QueuedSet(live) - {v};
    }
  }

  lemma CoversDistinct(order: seq<NodeId>, tasks: Tasks)
    requires Covers(order, tasks)
    ensures Distinct(order) && forall v :: v in order <==> v in tasks
  {
    assert forall v :: v in order <==> v in (set x <- order);
  }

  lemma PassOfNothing(def: Definition, snap: Tasks)
    ensures Pass(def, [], snap) == Settled(snap, [])
  {
  }

  lemma PassExtends(def: Definition, order: seq<NodeId>, i: nat, snap: Tasks)
    requires i < |order| && forall v <- order :: v in snap
    ensures var before := Pass(def, order[..i], snap);
            var v := order[i];
            var t := Decide(def, snap, before.tasks, v);
            Pass(def, order[..i + 1], snap) ==
            Settled(before.tasks[v := t],
                    if t.status.Running? && !before.tasks[v].status.Running? then before.spawns + [v]
                    else before.spawns)
  {
    assert order[..i + 1][..i] == order[..i];
  }

  lemma SettleUnfolds(def: Definition, order: seq<NodeId>, tasks: Tasks)
    requires Covers(order, tasks)
    ensures var p := Pass(def, order, tasks);
            Settle(def, order, tasks) ==
            if p.tasks == tasks then Settled(tasks, [])
            else Settled(Settle(def, order, p.tasks).tasks, p.spawns + Settle(def, order, p.tasks).spawns)
  {
  }

  /** Settling after one pass, the spawns of which join those from before. */
  lemma SettleOneMore(def: Definition, order: seq<NodeId>, tasks: Tasks, spawns: seq<NodeId>)
    requires WellFormed(def) && tasks.Keys == Ids(def) && Covers(order, tasks)
    ensures var pass := Pass(def, order, tasks);
            var whole, rest := Settle(def, order, tasks), Settle(def, order, pass.tasks);
            && pass.tasks.Keys == Ids(def) && Covers(order, pass.tasks)
            && whole.tasks == rest.tasks && spawns + whole.spawns == (spawns + pass.spawns) + rest.spawns
  {
    hide WellFormed, Pass, Settle;
    SettleUnfolds(def, order, tasks);
    if Pass(def, order, tasks).tasks == tasks {
      UnchangedPass(def, order, tasks);
    }
  }

  lemma SettleAtFixpoint(def: Definition, order: seq<NodeId>, tasks: Tasks, spawns: seq<NodeId>)
    requires WellFormed(def) && tasks.Keys == Ids(def) && Covers(order, tasks)
    requires Pass(def, order, tasks).tasks == tasks
    ensures var rest := Settle(def, order, tasks); Settled(rest.tasks, spawns + rest.spawns) == Settled(tasks, spawns)
  {
    hide WellFormed, Covers, Pass, Settle;
    SettleUnfolds(def, order, tasks);
    assert spawns + [] == spawns;
  }

  /** A pass that changes nothing spawns nothing. */
  lemma UnchangedPass(def: Definition, order: seq<NodeId>, tasks: Tasks)
    requires Covers(order, tasks) && Pass(def, order, tasks).tasks == tasks
    ensures Pass(def, order, tasks).spawns == []
  {
    PassSpawns(def, order, tasks);
    hide Pass;
    var spawns := Pass(def, order, tasks).spawns;
    HeadIsMember(spawns);
  }

  lemma HeadIsMember(s: seq<NodeId>)
    ensures s != [] ==> s[0] in s
  {
  }

  function WithExclusion(excluded: set<NodeId>, v: NodeId, t: Task): Task {
    if v in excluded && !t.status.Excluded? && !t.status.Succeeded? then t.(status := Status.Excluded) else t
  }

  function WithCancellation(t: Task): Task {
    if t.status.Terminal() then t else t.(status := Cancelled)
  }

  /** The map after a sweep has rewritten the rows of `done`. */
  ghost function Rewritten(before: Tasks, f: (NodeId, Task) -> Task, done: seq<NodeId>): (r: Tasks)
    ensures r.Keys == before.Keys
  {
    map v | v in before :: if v in done then f(v, before[v]) else before[v]
  }

  lemma RewriteNone(before: Tasks, f: (NodeId, Task) -> Task)
    ensures Rewritten(before, f, []) == before
  {
  }

  lemma RewriteOne(before: Tasks, f: (NodeId, Task) -> Task, order: seq<NodeId>, i: nat)
    requires Distinct(order) && i < |order| && order[i] in before
    ensures var cur := Rewritten(before, f, order[..i]);
            && cur[order[i]] == before[order[i]]
            && Rewritten(before, f, order[..i + 1]) == cur[order[i] := f(order[i], cur[order[i]])]
  {
    assert order[i] !in order[..i];
    assert order[..i + 1] == order[..i] + [order[i]];
  }

  lemma SameEntry(tasks: Tasks, v: NodeId)
    requires v in tasks
    ensures tasks[v := tasks[v]] == tasks
  {
  }

  lemma RewriteExcludes(def: Definition, before: Tasks, f: (NodeId, Task) -> Task, order: seq<NodeId>,
                        excluded: set<NodeId>, root: NodeId)
    requires forall v :: v in order <==> v in before
    requires forall v, t :: f(v, t) == WithExclusion(excluded, v, t)
    requires forall v :: v in excluded <==> Reaches(def, root, v)
    ensures Rewritten(before, f, order) == ExcludeBranch(def, before, root)
  {
    hide Reaches;
  }

  lemma RewriteCancels(before: Tasks, f: (NodeId, Task) -> Task, order: seq<NodeId>)
    requires forall v :: v in order <==> v in before
    requires forall v, t :: f(v, t) == WithCancellation(t)
    ensures Rewritten(before, f, order) == CancelTasks(before)
  {
  }

  lemma TokensOfNoChange(before: Tasks, given: map<NodeId, nat>)
    ensures ExcludeTokens(before, before, given) == given
  {
  }

  lemma TokensOfChange(before: Tasks, cur: Tasks, v: NodeId, t: Task, given: map<NodeId, nat>)
    requires v in before && v in cur && cur[v] == before[v]
    ensures var tokens := ExcludeTokens(before, cur, given);
            && cur[v := cur[v]] == cur
            && ExcludeTokens(before, cur[v := t], given) ==
               if t == cur[v] || v in tokens then tokens else tokens[v := 0]
  {
  }

  lemma CompleteCases(def: Definition, s: Run, k: Ticket, outcome: Outcome)
    ensures CompleteStep(def, s, k, outcome) ==
            if k.node in s.tokens && s.tokens[k.node] == k.token && !s.cancelled
               && k.node in s.tasks && s.tasks[k.node].status.Running? && NodeOf(def.nodes, k.node).Some?
            then s.(inflight := s.inflight - multiset{k},
                    tasks := s.tasks[k.node := AfterOutcome(def, s.tasks[k.node], outcome)],
                    applied := s.applied + [k])
            else s.(inflight := s.inflight - multiset{k})
  {
  }

  /** An outcome that takes effect always changes the task's status. */
  lemma OutcomeChanges(def: Definition, tasks: Tasks, v: NodeId, outcome: Outcome)
    requires v in tasks && tasks[v].status.Running?
    ensures tasks[v := AfterOutcome(def, tasks[v], outcome)] != tasks
  {
    assert tasks[v := AfterOutcome(def, tasks[v], outcome)][v] == AfterOutcome(def, tasks[v], outcome);
  }

  /** So does a decision, on the task that it is about. */
  lemma DecisionChanges(def: Definition, tasks: Tasks, v: NodeId, t: Task)
    requires v in tasks
    ensures t.status != tasks[v].status ==> tasks[v := t] != tasks
    ensures Excludable(tasks[v]) ==> ExcludeBranch(def, tasks, v) != tasks
  {
    hide Reaches;
    assert tasks[v := t][v] == t;
    ReachesSelf(def, v);
    assert Excludable(tasks[v]) ==> ExcludeBranch(def, tasks, v)[v].status.Excluded?;
  }

  lemma RespondCases(def: Definition, s: Run, v: NodeId, decision: string, feedback: Option<string>)
    ensures RespondStep(def, s, v, decision, feedback) ==
            if v !in s.tasks || NodeOf(def.nodes, v).None? then s
            else if ParseDecision(decision) == Some(Approve) && s.tasks[v].status.WaitingHuman? then
              s.(tasks := s.tasks[v := s.tasks[v].(status := Succeeded, output := Some(Approved()))])
            else if ParseDecision(decision) == Some(Feedback) && s.tasks[v].status.WaitingHuman? then
              s.(tasks := s.tasks[v := s.tasks[v].(status := Queued, attempt := s.tasks[v].attempt + 1)])
            else if ParseDecision(decision) == Some(Exclusion) && Excludable(s.tasks[v]) then
              s.(tasks := ExcludeBranch(def, s.tasks, v),
                 tokens := ExcludeTokens(s.tasks, ExcludeBranch(def, s.tasks, v), s.tokens))
            else s
  {
    hide Reaches, ExcludeBranch, ExcludeTokens;
  }

  lemma StopView(s: Run, r: Run)
    requires r.tasks == CancelTasks(s.tasks) && r.tokens == (map v | v in s.tokens :: s.tokenSeq + 1)
    requires r.tokenSeq == s.tokenSeq + 1 && r.inflight == s.inflight && r.cancelled == s.cancelled && r.finished
    requires r.issued == s.issued && r.applied == s.applied
    ensures r == StopStep(s)
  {
  }

  lemma OrderAt(rows: seq<TaskState>, i: nat)
    requires i < |rows|
    ensures i < |Order(rows)| && Order(rows)[i] == rows[i].nodeId && rows[i].nodeId in Order(rows)
    ensures Order(rows)[..i + 1] == Order(rows)[..i] + [rows[i].nodeId]
  {
  }

  lemma OrderLength(rows: seq<TaskState>)
    ensures |Order(rows)| == |rows|
  {
  }

  lemma SpawnIs(s: Run, v: NodeId)
    requires v in s.tasks
    ensures var k := Ticket(v, s.tokenSeq + 1, s.tasks[v].attempt);
            SpawnNode(s, v) ==
            s.(tokenSeq := s.tokenSeq + 1, tokens := s.tokens[v := s.tokenSeq + 1],
            inflight := s.inflight + multiset{k}, issued := s.issued + [k])
  {
  }

  lemma SpawnNothing(s: Run)
    ensures SpawnAll(s, []) == s
  {
  }

  lemma SpawnOneMore(s: Run, spawns: seq<NodeId>)
    requires spawns != [] && forall v <- spawns :: v in s.tasks
    ensures SpawnAll(s, spawns) == SpawnNode(SpawnAll(s, spawns[..|spawns| - 1]), spawns[|spawns| - 1])
  {
  }
}
