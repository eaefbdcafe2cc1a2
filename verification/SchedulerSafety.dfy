/** Safety of the run loop over whole runs: the concurrency budget, the exclusion closure,
    ends of runs, and the retry bound (src/mission.rs:851-1335). */
module SchedulerSafety {
  import opened Text
  import opened Flow
  import opened Graph
  import opened Convergence
  import opened Scheduler
  import opened SchedulerTokens

  predicate HasKind(def: Definition, v: NodeId, kind: NodeKind) {
    var n := NodeOf(def.nodes, v);
    n.Some? && n.value.kind == kind
  }

  // --- What a single step can newly cause ------------------------------------

  ghost predicate ExcludesBranch(s: Run, ev: Event) {
    ev.Respond? && ev.decision == "exclude" && ev.node in s.tasks && Excludable(s.tasks[ev.node])
  }

  /** Only settling starts or parks a task, only an accepted exclusion excludes, and only the
      branch below the excluded node. */
  ghost predicate Explained(def: Definition, s: Run, ev: Event, v: NodeId, a: Task, b: Task) {
    && (b.status.Running? && !a.status.Running? ==> ev.SettleNow?)
    && (b.status.WaitingHuman? && !a.status.WaitingHuman? ==> ev.SettleNow?)
    && (b.status.Succeeded? && a.status.Queued? ==> ev.SettleNow?)
    && (b.status.Cancelled? && !a.status.Cancelled? ==> ev.SettleNow? || ev.Stop?)
    && (b.status.Excluded? && !a.status.Excluded? ==> ExcludesBranch(s, ev) && Reaches(def, ev.node, v))
  }

  lemma RespondExplained(def: Definition, s: Run, ev: Event, v: NodeId)
    requires ev.Respond? && v in s.tasks
    ensures var r := RespondStep(def, s, ev.node, ev.decision, ev.feedback);
            v in r.tasks && Explained(def, s, ev, v, s.tasks[v], r.tasks[v])
  {
    hide Reaches, NodeOf, ExcludeTokens;
  }

  lemma StepExplained(def: Definition, order: seq<NodeId>, s: Run, ev: Event, v: NodeId)
    requires Shaped(def, order, s) && v in s.tasks
    ensures Explained(def, s, ev, v, s.tasks[v], Step(def, order, s, ev).tasks[v])
  {
    hide Settle, WellFormed, Reaches, RetryLimit, NodeOf, RespondStep, Allowed, Covers, ExcludesBranch;
    match ev
    case SettleNow =>
      EnumerationCovers(def, order, s);
      SettleAllowed(def, order, s.tasks, v);
    case Respond(_, _, _) => RespondExplained(def, s, ev, v);
    case Complete(_, _) =>
    case RequestCancel =>
    case Stop =>
  }

  // --- The concurrency budget ------------------------------------------------

  ghost predicate WithinBudget(def: Definition, s: Run) {
    |RunningSet(s.tasks)| <= MaxRunning(def)
  }

  lemma StepKeepsBudget(def: Definition, order: seq<NodeId>, s: Run, ev: Event)
    requires Shaped(def, order, s) && WithinBudget(def, s)
    ensures WithinBudget(def, Step(def, order, s, ev))
  {
    var next := Step(def, order, s, ev);
    if ev.SettleNow? {
      hide Settle, WellFormed, Progress, Converged, SpawnsAre, MaxRunning, SpawnAll;
      EnumerationCovers(def, order, s);
      SettleCorrect(def, order, s.tasks);
    } else {
      forall v | v in RunningSet(next.tasks) ensures v in RunningSet(s.tasks) {
        StepExplained(def, order, s, ev, v);
      }
      hide Step, WellFormed, RunningSet;
      SubsetNotLarger(RunningSet(next.tasks), RunningSet(s.tasks));
    }
  }

  /** The running count never exceeds the clamped budget. */
  lemma {:induction false} RunKeepsBudget(def: Definition, order: seq<NodeId>, events: seq<Event>)
    requires WellFormed(def) && IsEnumeration(def, order)
    ensures WithinBudget(def, After(def, order, events))
    decreases |events|
  {
    hide Step;
    if events == [] {
      assert RunningSet(Initial(def).tasks) == {};
    } else {
      hide WithinBudget;
      var init := events[..|events| - 1];
      RunKeepsBudget(def, order, init);
      StepKeepsBudget(def, order, After(def, order, init), events[|events| - 1]);
    }
  }

  // --- The exclusion closure -------------------------------------------------

  predicate ClosedOff(t: Task) {
    t.status.Excluded? || t.status.Succeeded?
  }

  /** Every successor of an excluded task is excluded or had already succeeded. */
  ghost predicate ExclusionClosed(def: Definition, tasks: Tasks) {
    forall u, v :: HasEdge(def, u, v) && u in tasks && v in tasks && tasks[u].status.Excluded? ==> ClosedOff(tasks[v])
  }

  lemma ExcludedBranchClosed(def: Definition, s: Run, v: NodeId, feedback: Option<string>, w: NodeId)
    requires v in s.tasks && Excludable(s.tasks[v]) && NodeOf(def.nodes, v).Some?
    requires w in s.tasks && Reaches(def, v, w)
    ensures ClosedOff(RespondStep(def, s, v, "exclude", feedback).tasks[w])
  {
    hide Reaches, NodeOf;
  }

  lemma StepKeepsExclusion(def: Definition, order: seq<NodeId>, s: Run, ev: Event)
    requires Shaped(def, order, s) && ExclusionClosed(def, s.tasks)
    ensures ExclusionClosed(def, Step(def, order, s, ev).tasks)
  {
    var next := Step(def, order, s, ev);
    forall u, v | HasEdge(def, u, v) && u in next.tasks && v in next.tasks && next.tasks[u].status.Excluded?
      ensures ClosedOff(next.tasks[v])
    {
      StepExplained(def, order, s, ev, u);
      StepAllowed(def, order, s, ev, v);
      if !s.tasks[u].status.Excluded? {
        ReachesStep(def, ev.node, u, v);
        NodeOfKnown(def, ev.node);
        ExcludedBranchClosed(def, s, ev.node, ev.feedback, v);
      }
      hide Step, Reaches, HasEdge, WellFormed;
    }
  }

  lemma {:induction false} RunKeepsExclusion(def: Definition, order: seq<NodeId>, events: seq<Event>)
    requires WellFormed(def) && IsEnumeration(def, order)
    ensures ExclusionClosed(def, After(def, order, events).tasks)
    decreases |events|
  {
    hide Step, HasEdge;
    if events != [] {
      hide ExclusionClosed;
      var init := events[..|events| - 1];
      RunKeepsExclusion(def, order, init);
      StepKeepsExclusion(def, order, After(def, order, init), events[|events| - 1]);
    }
  }

  /** An accepted exclusion closes off exactly the branch: a task becomes excluded if and only
      if it is reachable from the node and had not succeeded. */
  lemma ExcludeIsReachability(def: Definition, s: Run, v: NodeId, feedback: Option<string>, w: NodeId)
    requires v in s.tasks && NodeOf(def.nodes, v).Some? && w in s.tasks
    requires s.tasks[v].status.WaitingHuman? || s.tasks[v].status.Failed? || s.tasks[v].status.Queued?
    ensures var r := RespondStep(def, s, v, "exclude", feedback);
            && (r.tasks[w].status.Excluded? <==>
                s.tasks[w].status.Excluded? || (Reaches(def, v, w) && !s.tasks[w].status.Succeeded?))
            && (r.tasks[w] != s.tasks[w] ==> w in r.tokens)
            && (w in s.tokens ==> r.tokens[w] == s.tokens[w])
  {
    hide Reaches, NodeOf;
  }

  // --- A finished run stays finished -----------------------------------------

  ghost predicate FinishedInv(s: Run) {
    s.finished ==> AllTerminal(s.tasks)
  }

  lemma AllowedKeepsTerminal(limit: nat, a: Task, b: Task)
    requires Allowed(limit, a, b) && a.status.Terminal()
    ensures b.status.Terminal()
  {
  }

  lemma StepKeepsFinished(def: Definition, order: seq<NodeId>, s: Run, ev: Event)
    requires Shaped(def, order, s) && FinishedInv(s)
    ensures FinishedInv(Step(def, order, s, ev))
  {
    hide WellFormed, Settle, RespondStep, CompleteStep, RetryLimit, Allowed, NodeOf, Covers;
    EnumerationCovers(def, order, s);
    var next := Step(def, order, s, ev);
    if s.finished {
      forall v | v in next.tasks ensures next.tasks[v].status.Terminal() {
        StepAllowed(def, order, s, ev, v);
        AllowedKeepsTerminal(RetryLimit(def), s.tasks[v], next.tasks[v]);
      }
    } else if ev.Respond? {
      RespondNeverFinishes(def, s, ev.node, ev.decision, ev.feedback);
    } else if ev.Complete? {
      CompleteNeverFinishes(def, s, ev.ticket, ev.outcome);
    }
  }

  lemma RespondNeverFinishes(def: Definition, s: Run, v: NodeId, decision: string, feedback: Option<string>)
    ensures RespondStep(def, s, v, decision, feedback).finished == s.finished
  {
  }

  lemma CompleteNeverFinishes(def: Definition, s: Run, k: Ticket, outcome: Outcome)
    ensures CompleteStep(def, s, k, outcome).finished == s.finished
  {
  }

  /** Every task of a finished run is terminal. */
  lemma {:induction false} FinishedIsTerminal(def: Definition, order: seq<NodeId>, events: seq<Event>)
    requires WellFormed(def) && IsEnumeration(def, order)
    ensures FinishedInv(After(def, order, events))
    decreases |events|
  {
    hide Step;
    if events != [] {
      hide FinishedInv;
      FinishedIsTerminal(def, order, events[..|events| - 1]);
      StepKeepsFinished(def, order, After(def, order, events[..|events| - 1]), events[|events| - 1]);
    }
  }

  // --- Retries ---------------------------------------------------------------

  ghost predicate AttemptsBounded(def: Definition, tasks: Tasks) {
    forall v <- tasks.Keys ::
      && 1 <= tasks[v].attempt
      && (HasKind(def, v, Agent) ==> tasks[v].attempt <= RetryLimit(def) + 1)
      && (tasks[v].status.Running? ==> HasKind(def, v, Agent))
      && (tasks[v].status.WaitingHuman? ==> HasKind(def, v, Human))
  }

  /** Each node's executions carry growing attempts, up to its current one. */
  ghost predicate AttemptsIssued(tasks: Tasks, issued: seq<Ticket>) {
    && (forall i :: 0 <= i < |issued| ==>
          && issued[i].node in tasks && 1 <= issued[i].attempt <= tasks[issued[i].node].attempt
          && (tasks[issued[i].node].status.Queued? ==> issued[i].attempt < tasks[issued[i].node].attempt))
    && (forall i, j :: 0 <= i < j < |issued| && issued[i].node == issued[j].node ==>
          issued[i].attempt < issued[j].attempt)
  }

  function SpawnCount(issued: seq<Ticket>, v: NodeId): nat {
    if issued == [] then 0
    else SpawnCount(issued[..|issued| - 1], v) + (if issued[|issued| - 1].node == v then 1 else 0)
  }

  /** Growing attempts up to `top` leave room for at most `top` executions. */
  lemma {:induction false} SpawnCountBound(issued: seq<Ticket>, v: NodeId, top: nat)
    requires forall i :: 0 <= i < |issued| && issued[i].node == v ==> 1 <= issued[i].attempt <= top
    requires forall i, j :: 0 <= i < j < |issued| && issued[i].node == issued[j].node ==>
               issued[i].attempt < issued[j].attempt
    ensures SpawnCount(issued, v) <= top
    decreases |issued|
  {
    if issued != [] {
      var init, k := issued[..|issued| - 1], issued[|issued| - 1];
      if k.node == v {
        assert forall i :: 0 <= i < |init| && init[i].node == v ==> init[i] == issued[i] && init[i].attempt < k.attempt;
        SpawnCountBound(init, v, k.attempt - 1);
      } else {
        SpawnCountBound(init, v, top);
      }
    }
  }

  lemma VerdictKinds(def: Definition, env: Tasks, t: Task, v: NodeId)
    requires t.status.Queued?
    ensures Verdict(def, env, env, t, v).status.Running? ==> HasKind(def, v, Agent)
    ensures Verdict(def, env, env, t, v).status.WaitingHuman? ==> HasKind(def, v, Human)
  {
    hide Ready, Activated, NodeOf, Upstream;
  }

  lemma SettleKeepsBounds(def: Definition, order: seq<NodeId>, tasks: Tasks)
    requires WellFormed(def) && tasks.Keys == Ids(def) && Covers(order, tasks) && AttemptsBounded(def, tasks)
    ensures AttemptsBounded(def, Settle(def, order, tasks).tasks)
  {
    hide WellFormed, Settle, Converged, SpawnsAre, HasKind, RetryLimit, Verdict, Ready, Allowed, RunningSet;
    SettleCorrect(def, order, tasks);
    var fin := Settle(def, order, tasks).tasks;
    forall v | v in fin
      ensures fin[v].attempt == tasks[v].attempt
      ensures fin[v].status.Running? ==> HasKind(def, v, Agent)
      ensures fin[v].status.WaitingHuman? ==> HasKind(def, v, Human)
    {
      SettleAllowed(def, order, tasks, v);
      if tasks[v].status.Queued? {
        VerdictKinds(def, fin, tasks[v], v);
      }
    }
  }

  lemma StepKeepsBounds(def: Definition, order: seq<NodeId>, s: Run, ev: Event)
    requires Shaped(def, order, s) && AttemptsBounded(def, s.tasks)
    ensures AttemptsBounded(def, Step(def, order, s, ev).tasks)
  {
    var next := Step(def, order, s, ev);
    if ev.SettleNow? {
      EnumerationCovers(def, order, s);
      SettleKeepsBounds(def, order, s.tasks);
      hide Settle, HasKind, RetryLimit;
    } else {
      hide Step, HasKind, WellFormed, RetryLimit, AcceptedFeedback;
      forall v | v in next.tasks
        ensures Allowed(RetryLimit(def), s.tasks[v], next.tasks[v])
        ensures Explained(def, s, ev, v, s.tasks[v], next.tasks[v])
      {
        StepAllowed(def, order, s, ev, v);
        StepExplained(def, order, s, ev, v);
      }
      KindsExclusive(def);
    }
  }

  lemma KindsExclusive(def: Definition)
    ensures forall v :: !(HasKind(def, v, Agent) && HasKind(def, v, Human))
  {
  }

  /** Fresh attempt numbers for the next execution of `v`. */
  ghost predicate Fresh(issued: seq<Ticket>, v: NodeId, attempt: nat) {
    forall i :: 0 <= i < |issued| && issued[i].node == v ==> issued[i].attempt < attempt
  }

  lemma {:induction false} SpawnAllKeepsAttempts(s: Run, spawns: seq<NodeId>)
    requires Distinct(spawns) && (forall v <- spawns :: v in s.tasks)
    requires AttemptsIssued(s.tasks, s.issued)
    requires forall v <- spawns ::
               !s.tasks[v].status.Queued? && 1 <= s.tasks[v].attempt && Fresh(s.issued, v, s.tasks[v].attempt)
    ensures AttemptsIssued(s.tasks, SpawnAll(s, spawns).issued)
    ensures forall v :: v in s.tasks && v !in spawns && Fresh(s.issued, v, s.tasks[v].attempt) ==>
              Fresh(SpawnAll(s, spawns).issued, v, s.tasks[v].attempt)
    decreases |spawns|
  {
    if spawns != [] {
      var init, v := spawns[..|spawns| - 1], spawns[|spawns| - 1];
      SpawnAllKeepsAttempts(s, init);
      assert v !in init;
      var before := SpawnAll(s, init);
      var k := Ticket(v, before.tokenSeq + 1, s.tasks[v].attempt);
      assert SpawnAll(s, spawns).issued == before.issued + [k];
      hide SpawnAll;
      IssueKeepsAttempts(s.tasks, before.issued, k);
    }
  }

  lemma IssueKeepsAttempts(tasks: Tasks, issued: seq<Ticket>, k: Ticket)
    requires AttemptsIssued(tasks, issued) && k.node in tasks
    requires k.attempt == tasks[k.node].attempt >= 1 && !tasks[k.node].status.Queued?
    requires Fresh(issued, k.node, k.attempt)
    ensures AttemptsIssued(tasks, issued + [k])
    ensures forall v, n :: v != k.node && Fresh(issued, v, n) ==> Fresh(issued + [k], v, n)
  {
  }

  lemma AllowedKeepsIssued(limit: nat, a: Tasks, b: Tasks, issued: seq<Ticket>)
    requires AttemptsIssued(a, issued) && a.Keys == b.Keys
    requires forall v <- a.Keys :: Allowed(limit, a[v], b[v])
    ensures AttemptsIssued(b, issued)
  {
  }

  lemma SettleKeepsIssued(def: Definition, order: seq<NodeId>, s: Run)
    requires Shaped(def, order, s) && Covers(order, s.tasks)
    requires AttemptsBounded(def, s.tasks) && AttemptsIssued(s.tasks, s.issued)
    ensures AttemptsIssued(SettleStep(def, order, s).tasks, SettleStep(def, order, s).issued)
  {
    hide WellFormed, Settle, Converged, Progress, HasKind, RetryLimit, Allowed, RunningSet;
    SettleCorrect(def, order, s.tasks);
    var r := Settle(def, order, s.tasks);
    forall v | v in r.tasks
      ensures Allowed(RetryLimit(def), s.tasks[v], r.tasks[v])
      ensures v in r.spawns ==>
                s.tasks[v].status.Queued? && !r.tasks[v].status.Queued? && r.tasks[v].attempt == s.tasks[v].attempt
    {
      SettleAllowed(def, order, s.tasks, v);
    }
    AllowedKeepsIssued(RetryLimit(def), s.tasks, r.tasks, s.issued);
    forall v | v in r.spawns ensures Fresh(s.issued, v, r.tasks[v].attempt) {
    }
    SpawnAllKeepsAttempts(s.(tasks := r.tasks), r.spawns);
  }

  lemma StepKeepsIssued(def: Definition, order: seq<NodeId>, s: Run, ev: Event)
    requires Shaped(def, order, s) && AttemptsBounded(def, s.tasks) && AttemptsIssued(s.tasks, s.issued)
    ensures AttemptsIssued(Step(def, order, s, ev).tasks, Step(def, order, s, ev).issued)
  {
    hide WellFormed, SettleStep, RetryLimit, HasKind, AttemptsBounded;
    EnumerationCovers(def, order, s);
    if ev.SettleNow? {
      SettleKeepsIssued(def, order, s);
    } else {
      var next := Step(def, order, s, ev);
      forall v | v in s.tasks ensures Allowed(RetryLimit(def), s.tasks[v], next.tasks[v]) {
        StepAllowed(def, order, s, ev, v);
      }
      assert next.issued == s.issued;
      hide Step;
      AllowedKeepsIssued(RetryLimit(def), s.tasks, next.tasks, s.issued);
    }
  }

  lemma {:induction false} RunKeepsAttempts(def: Definition, order: seq<NodeId>, events: seq<Event>)
    requires WellFormed(def) && IsEnumeration(def, order)
    ensures var s := After(def, order, events);
            AttemptsBounded(def, s.tasks) && AttemptsIssued(s.tasks, s.issued)
    decreases |events|
  {
    hide Step, HasKind;
    if events != [] {
      hide AttemptsBounded, AttemptsIssued;
      var init := events[..|events| - 1];
      RunKeepsAttempts(def, order, init);
      StepKeepsBounds(def, order, After(def, order, init), events[|events| - 1]);
      StepKeepsIssued(def, order, After(def, order, init), events[|events| - 1]);
    }
  }

  /** In any run an agent node is spawned at most `min(retries, 10) + 1` times. */
  lemma AgentSpawnedAtMost(def: Definition, order: seq<NodeId>, events: seq<Event>, v: NodeId)
    requires WellFormed(def) && IsEnumeration(def, order)
    requires v in Ids(def) && HasKind(def, v, Agent)
    ensures SpawnCount(After(def, order, events).issued, v) <= RetryLimit(def) + 1
  {
    hide After, WellFormed, HasKind, RetryLimit;
    RunKeepsAttempts(def, order, events);
    SpawnCountBound(After(def, order, events).issued, v, RetryLimit(def) + 1);
  }
}
