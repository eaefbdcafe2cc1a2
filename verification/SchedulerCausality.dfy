/** Causality over whole runs: nothing starts without a fired chain from an input, and
    nothing on or downstream of a cycle ever starts (src/mission.rs:438-454, 861-966). */
module SchedulerCausality {
  import opened Text
  import opened Flow
  import opened Graph
  import opened Convergence
  import opened Scheduler
  import opened SchedulerSafety

  // --- Chains of fired edges -------------------------------------------------

  /** From a root, every node succeeded and its edge to the next one fired on its output. */
  ghost predicate Chain(def: Definition, tasks: Tasks, p: seq<NodeId>) {
    && p != [] && Sources(def, p[0]) == {}
    && forall i :: 0 <= i < |p| - 1 ==> p[i] in Sources(def, p[i + 1]) && Fired(def, tasks, p[i], p[i + 1])
  }

  ghost predicate ChainTo(def: Definition, tasks: Tasks, p: seq<NodeId>, v: NodeId) {
    Chain(def, tasks, p) && p[|p| - 1] == v
  }

  ghost predicate Linked(def: Definition, tasks: Tasks, v: NodeId) {
    exists p :: ChainTo(def, tasks, p, v)
  }

  predicate Started(t: Task) {
    t.status.Running? || t.status.WaitingHuman? || t.status.Succeeded? || t.status.Failed?
  }

  ghost predicate Causal(def: Definition, tasks: Tasks) {
    forall v <- tasks.Keys :: Started(tasks[v]) ==> Linked(def, tasks, v)
  }

  ghost predicate SucceededKept(a: Tasks, b: Tasks) {
    forall u <- a.Keys :: a[u].status.Succeeded? ==> u in b && b[u] == a[u]
  }

  lemma LinkedKept(def: Definition, a: Tasks, b: Tasks, v: NodeId)
    requires Linked(def, a, v) && SucceededKept(a, b)
    ensures Linked(def, b, v)
  {
    hide Activates, Sources;
    var p :| ChainTo(def, a, p, v);
    assert ChainTo(def, b, p, v);
  }

  lemma LinkedByActivation(def: Definition, tasks: Tasks, v: NodeId)
    requires Activated(def, tasks, v)
    requires forall u <- tasks.Keys :: tasks[u].status.Succeeded? ==> Linked(def, tasks, u)
    ensures Linked(def, tasks, v)
  {
    hide Activates;
    if Sources(def, v) == {} {
      assert ChainTo(def, tasks, [v], v);
    } else {
      var u :| u in Sources(def, v) && Fired(def, tasks, u, v);
      hide Fired, Sources;
      ExtendChain(def, tasks, u, v);
    }
  }

  lemma ExtendChain(def: Definition, tasks: Tasks, u: NodeId, v: NodeId)
    requires Linked(def, tasks, u) && u in Sources(def, v) && Fired(def, tasks, u, v)
    ensures Linked(def, tasks, v)
  {
    hide Fired, Sources;
    var p :| ChainTo(def, tasks, p, u);
    assert ChainTo(def, tasks, p + [v], v);
  }

  lemma PassKeepsCausal(def: Definition, order: seq<NodeId>, snap: Tasks)
    requires Covers(order, snap) && Causal(def, snap)
    ensures Causal(def, Pass(def, order, snap).tasks)
  {
    hide Linked, Verdict, Activated, Ready, MaxRunning, Pass;
    PassSweeps(def, order, snap);
    var fin := Pass(def, order, snap).tasks;
    assert forall v :: v in order <==> v in snap by {
      assert forall v :: v in (set x <- order) <==> v in order;
    }
    forall v | v in snap
      ensures fin[v] == snap[v] || (snap[v].status.Queued? && (fin[v].status.Cancelled? || Activated(def, snap, v)))
    {
      assert Handled(def, snap, fin, v);
      VerdictShape(def, snap, snap[v], v);
    }
    hide Handled;
    forall v | v in fin && Started(fin[v]) ensures Linked(def, fin, v) {
      if fin[v] != snap[v] {
        LinkedByActivation(def, snap, v);
      }
      LinkedKept(def, snap, fin, v);
    }
  }

  lemma {:induction false} SettleKeepsCausal(def: Definition, order: seq<NodeId>, tasks: Tasks)
    requires Covers(order, tasks) && Causal(def, tasks)
    ensures Causal(def, Settle(def, order, tasks).tasks)
    decreases QueuedSet(tasks)
  {
    hide Pass, Causal;
    var p := Pass(def, order, tasks);
    if p.tasks != tasks {
      PassShrinksQueue(def, order, tasks);
      PassKeepsCausal(def, order, tasks);
      SettleKeepsCausal(def, order, p.tasks);
    }
  }

  lemma StepKeepsCausal(def: Definition, order: seq<NodeId>, s: Run, ev: Event)
    requires Shaped(def, order, s) && Causal(def, s.tasks)
    ensures Causal(def, Step(def, order, s, ev).tasks)
  {
    hide WellFormed, Settle, Linked, RetryLimit, Covers;
    EnumerationCovers(def, order, s);
    if ev.SettleNow? {
      SettleKeepsCausal(def, order, s.tasks);
    } else {
      hide Step;
      var next := Step(def, order, s, ev);
      forall v | v in s.tasks
        ensures s.tasks[v].status.Succeeded? ==> next.tasks[v] == s.tasks[v]
        ensures Started(next.tasks[v]) ==> Started(s.tasks[v])
      {
        StepAllowed(def, order, s, ev, v);
        StepExplained(def, order, s, ev, v);
      }
      forall v | v in next.tasks && Started(next.tasks[v]) ensures Linked(def, next.tasks, v) {
        LinkedKept(def, s.tasks, next.tasks, v);
      }
    }
  }

  /** Causality: whatever runs, waits, succeeded or failed is reached from a root by a chain of
      succeeded tasks whose edges fired on their stored outputs. */
  lemma {:induction false} RunIsCausal(def: Definition, order: seq<NodeId>, events: seq<Event>)
    requires WellFormed(def) && IsEnumeration(def, order)
    ensures Causal(def, After(def, order, events).tasks)
    decreases |events|
  {
    hide Step, Linked;
    if events != [] {
      hide Causal;
      RunIsCausal(def, order, events[..|events| - 1]);
      StepKeepsCausal(def, order, After(def, order, events[..|events| - 1]), events[|events| - 1]);
    }
  }

  /** In an accepted flow the root of each such chain is an input node. */
  lemma StartedIsLinkedToInput(def: Definition, order: seq<NodeId>, events: seq<Event>, v: NodeId)
    returns (p: seq<NodeId>)
    requires Accepted(def) && IsEnumeration(def, order)
    requires var s := After(def, order, events); v in s.tasks && Started(s.tasks[v])
    ensures ChainTo(def, After(def, order, events).tasks, p, v)
    ensures HasKind(def, p[0], Input)
  {
    hide After, ValidNode, ValidCondition;
    RunIsCausal(def, order, events);
    var tasks := After(def, order, events).tasks;
    p :| ChainTo(def, tasks, p, v);
    assert p[0] in Ids(def) by {
      hide Sources;
      if |p| > 1 {
        assert Fired(def, tasks, p[0], p[1]);
      }
    }
    hide Chain, Fired;
    NodeOfKnown(def, p[0]);
    var n := NodeOf(def.nodes, p[0]).value;
    assert RootRule(def, n);
  }

  // --- Cycles ----------------------------------------------------------------

  /** Untouched by the scheduler: queued, or excluded by a human, or swept by the cancellation
      that ended the run. */
  ghost predicate ZoneIdle(s: Run, zone: set<NodeId>) {
    forall v <- zone :: v in s.tasks ==>
      || s.tasks[v].status.Queued? || s.tasks[v].status.Excluded?
      || (s.tasks[v].status.Cancelled? && s.finished && s.cancelled)
  }

  ghost predicate ZoneOpen(tasks: Tasks, zone: set<NodeId>) {
    forall v <- zone :: v in tasks ==> tasks[v].status.Queued? || tasks[v].status.Excluded?
  }

  /** A queued zone node waits for a zone source: that one is queued too, because a successor
      of an excluded task cannot be queued. */
  lemma ZoneNotReady(def: Definition, tasks: Tasks, zone: set<NodeId>, v: NodeId)
    requires Sustained(def, zone) && ZoneOpen(tasks, zone) && ExclusionClosed(def, tasks)
    requires v in zone && v in tasks && tasks[v].status.Queued?
    ensures !Ready(def, tasks, v)
  {
    hide Sustained, HasEdge;
    var u := SourceInZone(def, zone, v);
    HasEdgeIffSource(def, u, v);
  }

  lemma PassKeepsZone(def: Definition, order: seq<NodeId>, snap: Tasks, zone: set<NodeId>)
    requires Covers(order, snap) && Sustained(def, zone) && ZoneOpen(snap, zone) && ExclusionClosed(def, snap)
    ensures ZoneOpen(Pass(def, order, snap).tasks, zone) && ExclusionClosed(def, Pass(def, order, snap).tasks)
  {
    hide Pass, Sustained, Ready, MaxRunning, Activated, Upstream, NodeOf, HasEdge;
    PassSweeps(def, order, snap);
    var fin := Pass(def, order, snap).tasks;
    forall v | v in snap
      ensures fin[v] == snap[v] || (snap[v].status.Queued? && Ready(def, snap, v) && !fin[v].status.Excluded?)
    {
      assert Handled(def, snap, fin, v);
      VerdictShape(def, snap, snap[v], v);
    }
    hide Verdict, Handled;
    forall v | v in zone && v in snap ensures fin[v] == snap[v] {
      if snap[v].status.Queued? {
        ZoneNotReady(def, snap, zone, v);
      }
    }
  }

  lemma {:induction false} SettleKeepsZone(def: Definition, order: seq<NodeId>, tasks: Tasks, zone: set<NodeId>)
    requires Covers(order, tasks) && Sustained(def, zone) && ZoneOpen(tasks, zone) && ExclusionClosed(def, tasks)
    ensures ZoneOpen(Settle(def, order, tasks).tasks, zone)
    decreases QueuedSet(tasks)
  {
    hide Pass, Sustained, ZoneOpen, ExclusionClosed;
    var p := Pass(def, order, tasks);
    if p.tasks != tasks {
      PassShrinksQueue(def, order, tasks);
      PassKeepsZone(def, order, tasks, zone);
      SettleKeepsZone(def, order, p.tasks, zone);
    }
  }

  lemma StepKeepsZone(def: Definition, order: seq<NodeId>, s: Run, ev: Event, zone: set<NodeId>)
    requires Shaped(def, order, s) && Enabled(s, ev)
    requires Sustained(def, zone) && ZoneIdle(s, zone) && ExclusionClosed(def, s.tasks)
    ensures ZoneIdle(Step(def, order, s, ev), zone)
  {
    hide WellFormed, Settle, Sustained, RetryLimit, ExclusionClosed, Covers, NodeOf, Reaches;
    EnumerationCovers(def, order, s);
    var next := Step(def, order, s, ev);
    if ev.SettleNow? {
      SettleKeepsZone(def, order, s.tasks, zone);
    } else {
      assert s.finished ==> next.finished;
      assert s.cancelled ==> next.cancelled;
      assert ev.Stop? ==> next.finished && s.cancelled;
      hide Step;
      forall v | v in zone && v in next.tasks
        ensures || next.tasks[v].status.Queued? || next.tasks[v].status.Excluded?
                || (next.tasks[v].status.Cancelled? && next.finished && next.cancelled)
      {
        StepAllowed(def, order, s, ev, v);
        StepExplained(def, order, s, ev, v);
      }
    }
  }

  lemma {:induction false} ZoneNeverStarts(def: Definition, order: seq<NodeId>, events: seq<Event>, zone: set<NodeId>)
    requires WellFormed(def) && IsEnumeration(def, order) && IsRun(def, order, events) && Sustained(def, zone)
    ensures ZoneIdle(After(def, order, events), zone)
    decreases |events|
  {
    hide Step, Sustained, Enabled;
    if events != [] {
      hide ZoneIdle;
      var init := events[..|events| - 1];
      ZoneNeverStarts(def, order, init, zone);
      RunKeepsExclusion(def, order, init);
      StepKeepsZone(def, order, After(def, order, init), events[|events| - 1], zone);
    }
  }

  /** All that a cycle reaches. */
  ghost predicate BelowCycle(def: Definition, v: NodeId) {
    exists p, q :: IsCycle(def, p) && PathBetween(def, q, p[0], v)
  }

  /** What lies on or downstream of a cycle forms a sustained zone. */
  lemma BelowCycleIsSustained(def: Definition, v: NodeId) returns (zone: set<NodeId>)
    requires BelowCycle(def, v)
    ensures Sustained(def, zone) && v in zone
  {
    hide HasEdge;
    var p, q :| IsCycle(def, p) && PathBetween(def, q, p[0], v);
    zone := (set x <- p) + (set x <- q);
    assert q[|q| - 1] in q;
    forall x | x in zone ensures HasSourceIn(def, zone, x) {
      if x in p {
        var j :| 0 <= j < |p| && p[j] == x;
        var i := if j == 0 then |p| - 2 else j - 1;
        assert HasEdge(def, p[i], p[i + 1]) && p[i] in zone;
      } else {
        var j :| 0 <= j < |q| && q[j] == x;
        assert p[0] in p;
        assert HasEdge(def, q[j - 1], q[j]) && q[j - 1] in zone;
      }
    }
  }

  /** No node on or downstream of a cycle ever starts, in any run. */
  lemma BelowCycleNeverStarts(def: Definition, order: seq<NodeId>, events: seq<Event>, v: NodeId)
    requires WellFormed(def) && IsEnumeration(def, order) && IsRun(def, order, events)
    requires v in Ids(def) && BelowCycle(def, v)
    ensures !Started(After(def, order, events).tasks[v])
  {
    hide After, WellFormed, IsRun;
    var zone := BelowCycleIsSustained(def, v);
    hide Sustained;
    ZoneNeverStarts(def, order, events, zone);
  }

  /** A run over a flow with a cycle can end only by cancellation, or by a human excluding
      everything on the cycle. */
  lemma CycleBlocksFinish(def: Definition, order: seq<NodeId>, events: seq<Event>, v: NodeId)
    requires WellFormed(def) && IsEnumeration(def, order) && IsRun(def, order, events)
    requires v in Ids(def) && BelowCycle(def, v)
    requires After(def, order, events).finished && !After(def, order, events).cancelled
    ensures After(def, order, events).tasks[v].status.Excluded?
  {
    hide After, WellFormed, IsRun;
    var zone := BelowCycleIsSustained(def, v);
    hide Sustained;
    ZoneNeverStarts(def, order, events, zone);
    FinishedIsTerminal(def, order, events);
  }
}
