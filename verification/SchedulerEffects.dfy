/** What outcomes and decisions do to a run, in plain terms, and where the outputs of tasks come from
    (src/mission.rs:1100-1335). */
module SchedulerEffects {
  import opened Text
  import opened Conditions
  import opened ConditionMeaning
  import opened Flow
  import opened Graph
  import opened Convergence
  import opened SettleMeaning
  import opened Scheduler
  import opened SchedulerTokens
  import opened SchedulerSafety

  // --- One step ------------------------------------------------------------------

  /** The outcome of the current execution of a running task: an output is stored and the task succeeds; an
      error queues it again, one attempt on, as long as its attempt is at most min(retries, 10), and fails it
      after that. */
  lemma OutcomeEffect(def: Definition, order: seq<NodeId>, events: seq<Event>, k: Ticket, outcome: Outcome)
    requires WellFormed(def) && IsEnumeration(def, order) && IsRun(def, order, events)
    requires k in After(def, order, events).inflight
    requires var s := After(def, order, events);
             !s.cancelled && k.node in s.tasks && s.tasks[k.node].status.Running?
             && k.node in s.tokens && k == CurrentTicket(s, k.node)
    ensures var s, r := After(def, order, events), CompleteStep(def, After(def, order, events), k, outcome);
            var t := s.tasks[k.node];
            && r.applied == s.applied + [k] && r.inflight == s.inflight - multiset{k}
            && r.tasks == s.tasks[k.node :=
                 match outcome
                 case Done(output) => Task(Succeeded, t.attempt, Some(output), None)
                 case Error(message) =>
                   if t.attempt <= (if def.retries < 10 then def.retries else 10)
                   then Task(Queued, t.attempt + 1, t.output, Some(message))
                   else Task(Failed, t.attempt, t.output, Some(message))]
  {
    hide After, IsRun, WellFormed, NodeOf;
    NodeOfKnown(def, k.node);
  }

  /** What a decision does to the task that it is about, and to the others. */
  lemma DecisionEffect(def: Definition, s: Run, v: NodeId, decision: string, feedback: Option<string>)
    requires v in s.tasks && v in Ids(def)
    ensures var r, t := RespondStep(def, s, v, decision, feedback), s.tasks[v];
            && (decision == "approve" ==>
                  if t.status.WaitingHuman?
                  then exists o ::
                    IsApproval(o) && r == s.(tasks := s.tasks[v := Task(Succeeded, t.attempt, Some(o), t.error)])
                  else r == s)
            && (decision == "feedback" ==>
                  r == if t.status.WaitingHuman?
                       then s.(tasks := s.tasks[v := Task(Queued, t.attempt + 1, t.output, t.error)]) else s)
            && (decision == "exclude" ==>
                  (r.tasks != s.tasks <==> t.status.WaitingHuman? || t.status.Failed? || t.status.Queued?))
            && (decision == "exclude" && r.tasks == s.tasks ==> r == s)
            && (decision != "approve" && decision != "feedback" && decision != "exclude" ==> r == s)
  {
    hide Reaches, ExcludeTokens;
    NodeOfKnown(def, v);
    ReachesSelf(def, v);
    ApprovedIs();
    if decision == "exclude" && Excludable(s.tasks[v]) {
      assert RespondStep(def, s, v, decision, feedback).tasks[v].status.Excluded?;
    }
  }

  /** An object that says that the node was approved, and nothing else. */
  predicate IsApproval(o: Json) {
    && o.Object? && o.fields.Keys == {"approved"} && Token(o.fields["approved"]) == "true"
    && o.text == "{\"approved\":true}"
  }

  lemma ApprovedIs()
    ensures IsApproval(Approved())
  {
  }

  /** An approval takes the edges that ask for it, and not those that ask for its contrary. */
  lemma ApprovalFires(def: Definition, e: Edge, o: Json)
    requires IsApproval(o)
    ensures e.condition == Some("approved=true") ==> EdgeFires(def, e, o)
    ensures e.condition == Some("approved=false") ==> !EdgeFires(def, e, o)
  {
    hide Evaluate, IsDefault, Holds, Settings;
    ApprovalClause("true");
    ApprovalClause("false");
    assert "approved=" + "true" == "approved=true" && "approved=" + "false" == "approved=false";
    var yes, no := Clause("approved", false, "true"), Clause("approved", false, "false");
    NotDefault([[yes]]);
    NotDefault([[no]]);
    OneClausePrints(yes);
    OneClausePrints(no);
    ClauseMeans(yes, OutputContext(o), Settings(def));
    ClauseMeans(no, OutputContext(o), Settings(def));
    ApprovalHolds(o, "true", Settings(def));
    ApprovalHolds(o, "false", Settings(def));
    assert "true" != "false" by { assert "true"[0] == 't' && "false"[0] == 'f'; }
  }

  lemma ApprovalClause(value: string)
    requires value == "true" || value == "false"
    ensures IsClause(Clause("approved", false, value))
    ensures PrintClause(Clause("approved", false, value)) == "approved=" + value
  {
    hide FindPair;
    assert '!' !in value;
  }

  lemma ApprovalHolds(o: Json, value: string, settings: Context)
    requires IsApproval(o)
    ensures Holds(Clause("approved", false, value), OutputContext(o), settings) <==> value == "true"
  {
    assert "approved" != "output" by { assert "approved"[0] == 'a' && "output"[0] == 'o'; }
  }

  /** Cancellation ends the run: every task that was not over is cancelled, and no token stays current. */
  lemma StopEffect(s: Run)
    ensures var r := StopStep(s);
            && r.finished && r.tasks.Keys == s.tasks.Keys && r.tokens.Keys == s.tokens.Keys
            && (forall v <- s.tasks ::
                  r.tasks[v] == if Over(s.tasks[v]) then s.tasks[v] else s.tasks[v].(status := Cancelled))
            && (forall v <- s.tokens :: r.tokens[v] > s.tokenSeq)
  {
  }

  // --- Where the outputs come from --------------------------------------------------

  /** The `i`th event is the output of `v`'s current execution, and it takes effect. */
  ghost predicate Received(def: Definition, order: seq<NodeId>, events: seq<Event>, i: nat, v: NodeId, output: Json)
    requires WellFormed(def) && IsEnumeration(def, order)
  {
    && i < |events| && events[i].Complete? && events[i].outcome == Done(output) && events[i].ticket.node == v
    && var before := After(def, order, events[..i]);
       && !before.cancelled && v in before.tasks && before.tasks[v].status.Running?
       && v in before.tokens && events[i].ticket == CurrentTicket(before, v)
  }

  /** The `i`th event approves `v`, which waits for it. */
  ghost predicate ApprovedAt(def: Definition, order: seq<NodeId>, events: seq<Event>, i: nat, v: NodeId)
    requires WellFormed(def) && IsEnumeration(def, order)
  {
    && i < |events| && events[i].Respond? && events[i].node == v && events[i].decision == "approve"
    && var before := After(def, order, events[..i]);
       v in before.tasks && before.tasks[v].status.WaitingHuman?
  }

  /** What settling may do to an agent or a human: start it, park it, or cut it off. */
  lemma SettleStarts(def: Definition, order: seq<NodeId>, s: Run, v: NodeId)
    requires Shaped(def, order, s) && v in s.tasks && |RunningSet(s.tasks)| <= MaxRunning(def)
    ensures var a, b := s.tasks[v], SettleStep(def, order, s).tasks[v];
            && (HasKind(def, v, Agent) ==>
                  b == a || (a.status.Queued? && (b == a.(status := Running) || b == a.(status := Cancelled))))
            && (HasKind(def, v, Human) ==>
                  b == a || (a.status.Queued? && (b == a.(status := WaitingHuman) || b == a.(status := Cancelled))))
  {
    hide Settle, Called, SourcesOver, WellFormed, Collects;
    EnumerationCovers(def, order, s);
    SettleEffect(def, order, s.tasks, v);
    var settled := Settle(def, order, s.tasks).tasks;
    if exists n <- def.nodes :: n.id == v && Acts(def, settled, n, s.tasks[v], settled[v]) {
      var n :| n in def.nodes && n.id == v && Acts(def, settled, n, s.tasks[v], settled[v]);
      SameNodeIs(def, n);
    }
  }

  lemma SameNodeIs(def: Definition, n: Node)
    requires WellFormed(def) && n in def.nodes
    ensures NodeOf(def.nodes, n.id) == Some(n)
  {
    var m := NodeOf(def.nodes, n.id).value;
    var i :| 0 <= i < |def.nodes| && def.nodes[i] == n;
    var j :| 0 <= j < |def.nodes| && def.nodes[j] == m;
  }

  lemma CompleteIsCurrent(def: Definition, order: seq<NodeId>, events: seq<Event>, k: Ticket, outcome: Outcome,
                          v: NodeId)
    requires WellFormed(def) && IsEnumeration(def, order) && IsRun(def, order, events)
    requires k in After(def, order, events).inflight && v in After(def, order, events).tasks
    requires CompleteStep(def, After(def, order, events), k, outcome).tasks[v] != After(def, order, events).tasks[v]
    ensures var s := After(def, order, events);
            && !s.cancelled && v == k.node && s.tasks[v].status.Running?
            && v in s.tokens && k == CurrentTicket(s, v)
  {
    hide After, IsRun, WellFormed, AfterOutcome;
    OutcomeAppliesIffCurrent(def, order, events, k, outcome);
  }

  /** The last event of a run, seen from one task. */
  lemma LastEvent(def: Definition, order: seq<NodeId>, events: seq<Event>, v: NodeId)
    requires WellFormed(def) && IsEnumeration(def, order) && IsRun(def, order, events) && events != [] && v in Ids(def)
    ensures var last := |events| - 1;
            var s, next, ev := After(def, order, events[..last]), After(def, order, events), events[last];
            && IsRun(def, order, events[..last]) && Shaped(def, order, s) && Enabled(s, ev)
            && next == Step(def, order, s, ev) && v in s.tasks
            && |RunningSet(s.tasks)| <= MaxRunning(def) && AttemptsBounded(def, s.tasks)
            && Allowed(RetryLimit(def), s.tasks[v], next.tasks[v])
  {
    hide Step, WithinBudget;
    var init := events[..|events| - 1];
    hide After;
    RunKeepsBudget(def, order, init);
    RunKeepsAttempts(def, order, init);
    assert WithinBudget(def, After(def, order, init));
    BudgetIs(def, After(def, order, init));
    AfterLast(def, order, events);
    StepAllowed(def, order, After(def, order, init), events[|events| - 1], v);
  }

  lemma BudgetIs(def: Definition, s: Run)
    ensures WithinBudget(def, s) <==> |RunningSet(s.tasks)| <= MaxRunning(def)
  {
  }

  lemma AfterLast(def: Definition, order: seq<NodeId>, events: seq<Event>)
    requires WellFormed(def) && IsEnumeration(def, order) && events != []
    ensures var s := After(def, order, events[..|events| - 1]);
            Shaped(def, order, s) && After(def, order, events) == Step(def, order, s, events[|events| - 1])
  {
    hide Step;
  }

  lemma NotHuman(def: Definition, v: NodeId)
    ensures !(HasKind(def, v, Agent) && HasKind(def, v, Human))
  {
  }

  lemma RespondSucceeds(def: Definition, s: Run, ev: Event, v: NodeId)
    requires ev.Respond? && v in s.tasks && AttemptsBounded(def, s.tasks) && !s.tasks[v].status.Succeeded?
    ensures var r := RespondStep(def, s, ev.node, ev.decision, ev.feedback);
            && v in r.tasks
            && (r.tasks[v].status.Succeeded? ==>
                  && ev.node == v && ev.decision == "approve"
                  && s.tasks[v].status.WaitingHuman? && HasKind(def, v, Human)
                  && r.tasks[v].output == Some(Approved()))
  {
    hide HasKind, RetryLimit, Reaches, ExcludeTokens, NodeOf, Approved;
  }

  lemma CompleteSucceeds(def: Definition, s: Run, k: Ticket, outcome: Outcome, v: NodeId)
    requires v in s.tasks && AttemptsBounded(def, s.tasks) && !s.tasks[v].status.Succeeded?
    ensures var r := CompleteStep(def, s, k, outcome);
            v in r.tasks && (r.tasks[v].status.Succeeded? ==> HasKind(def, v, Agent))
  {
    hide HasKind, RetryLimit, NodeOf;
  }

  /** An agent or a human succeeds in one way only. */
  lemma SucceedsBy(def: Definition, order: seq<NodeId>, s: Run, ev: Event, v: NodeId)
    requires Shaped(def, order, s) && v in s.tasks && |RunningSet(s.tasks)| <= MaxRunning(def)
    requires AttemptsBounded(def, s.tasks) && (HasKind(def, v, Agent) || HasKind(def, v, Human))
    requires !s.tasks[v].status.Succeeded? && Step(def, order, s, ev).tasks[v].status.Succeeded?
    ensures if HasKind(def, v, Agent) then ev.Complete?
            else ev.Respond? && ev.node == v && ev.decision == "approve" && s.tasks[v].status.WaitingHuman?
                 && Step(def, order, s, ev).tasks[v].output == Some(Approved())
  {
    hide WellFormed, HasKind, RetryLimit, RespondStep, CompleteStep, SettleStep, StopStep, AttemptsBounded, Approved;
    NotHuman(def, v);
    if ev.SettleNow? {
      SettleStarts(def, order, s, v);
    } else if ev.Respond? {
      RespondSucceeds(def, s, ev, v);
    } else if ev.Complete? {
      CompleteSucceeds(def, s, ev.ticket, ev.outcome, v);
    } else if ev.Stop? {
      StopEffect(s);
    }
  }

  /** The output of a succeeded agent is that of an execution of its own, the current one when it was
      received, and applied once. */
  lemma {:induction false} AgentOutput(def: Definition, order: seq<NodeId>, events: seq<Event>, v: NodeId)
    returns (i: nat, output: Json)
    requires WellFormed(def) && IsEnumeration(def, order) && IsRun(def, order, events)
    requires v in Ids(def) && HasKind(def, v, Agent) && After(def, order, events).tasks[v].status.Succeeded?
    ensures Received(def, order, events, i, v, output)
    ensures After(def, order, events).tasks[v].output == Some(output)
    ensures events[i].ticket in After(def, order, events).applied
  {
    hide WellFormed, HasKind, IsRun, After, AttemptsBounded;
    FreshTasks(def, order, v);
    LastEvent(def, order, events, v);
    var last := |events| - 1;
    var init, ev := events[..last], events[last];
    var s := After(def, order, init);
    if s.tasks[v].status.Succeeded? {
      hide Step;
      i, output := AgentOutput(def, order, init, v);
      assert init[..i] == events[..i];
      AppliedStays(def, order, s, ev, init[i].ticket);
      hide Allowed;
      SucceededStays(RetryLimit(def), s.tasks[v], After(def, order, events).tasks[v]);
    } else {
      SucceedsBy(def, order, s, ev, v);
      CompleteIsCurrent(def, order, init, ev.ticket, ev.outcome, v);
      OutcomeEffect(def, order, init, ev.ticket, ev.outcome);
      i, output := last, ev.outcome.output;
    }
  }

  lemma FreshTasks(def: Definition, order: seq<NodeId>, v: NodeId)
    requires WellFormed(def) && IsEnumeration(def, order) && v in Ids(def)
    ensures After(def, order, []).tasks[v] == Task(Queued, 1, None, None) && After(def, order, []).issued == []
  {
  }

  lemma SucceededStays(limit: nat, a: Task, b: Task)
    requires Allowed(limit, a, b) && a.status.Succeeded?
    ensures b == a
  {
  }

  lemma AppliedStays(def: Definition, order: seq<NodeId>, s: Run, ev: Event, k: Ticket)
    requires Shaped(def, order, s) && k in s.applied
    ensures k in Step(def, order, s, ev).applied
  {
    hide WellFormed, Settle, NodeOf, Reaches, RetryLimit, ExcludeTokens, AfterOutcome;
    EnumerationCovers(def, order, s);
  }

  /** A succeeded human was approved while it waited, and its output says so. */
  lemma {:induction false} HumanOutput(def: Definition, order: seq<NodeId>, events: seq<Event>, v: NodeId)
    returns (i: nat)
    requires WellFormed(def) && IsEnumeration(def, order) && IsRun(def, order, events)
    requires v in Ids(def) && HasKind(def, v, Human) && After(def, order, events).tasks[v].status.Succeeded?
    ensures ApprovedAt(def, order, events, i, v)
    ensures var output := After(def, order, events).tasks[v].output; output.Some? && IsApproval(output.value)
  {
    hide WellFormed, HasKind, IsRun, After, AttemptsBounded, IsApproval;
    FreshTasks(def, order, v);
    LastEvent(def, order, events, v);
    var last := |events| - 1;
    var init, ev := events[..last], events[last];
    var s := After(def, order, init);
    if s.tasks[v].status.Succeeded? {
      hide Step;
      i := HumanOutput(def, order, init, v);
      assert init[..i] == events[..i];
      hide Allowed;
      SucceededStays(RetryLimit(def), s.tasks[v], After(def, order, events).tasks[v]);
    } else {
      NotHuman(def, v);
      SucceedsBy(def, order, s, ev, v);
      ApprovedIs();
      i := last;
    }
  }

  // --- How often an agent has been tried -----------------------------------------

  /** One execution for each attempt that has begun; a failed agent has used up all of them. */
  ghost predicate Tried(def: Definition, s: Run, v: NodeId)
    requires v in s.tasks
  {
    var t, n := s.tasks[v], SpawnCount(s.issued, v);
    && (t.status.Queued? ==> n + 1 == t.attempt)
    && (t.status.Running? || t.status.Succeeded? || t.status.Failed? ==> n == t.attempt)
    && (t.status.Failed? ==> t.attempt == RetryLimit(def) + 1)
  }

  lemma {:induction false} SpawnAllTries(s: Run, spawns: seq<NodeId>, v: NodeId)
    requires Distinct(spawns) && forall u <- spawns :: u in s.tasks
    ensures SpawnCount(SpawnAll(s, spawns).issued, v) == SpawnCount(s.issued, v) + if v in spawns then 1 else 0
  {
    hide SpawnAll, SpawnCount, Distinct;
    if spawns != [] {
      var init, u := spawns[..|spawns| - 1], spawns[|spawns| - 1];
      LastIsNew(spawns);
      SpawnAllTries(s, init, v);
      SpawnOneTries(s, spawns, v);
      assert spawns == init + [u];
    } else {
      SpawnNone(s);
    }
  }

  lemma SpawnNone(s: Run)
    ensures SpawnAll(s, []) == s
  {
  }

  lemma LastIsNew(spawns: seq<NodeId>)
    requires Distinct(spawns) && spawns != []
    ensures Distinct(spawns[..|spawns| - 1]) && spawns[|spawns| - 1] !in spawns[..|spawns| - 1]
  {
  }

  lemma SpawnOneTries(s: Run, spawns: seq<NodeId>, v: NodeId)
    requires spawns != [] && forall u <- spawns :: u in s.tasks
    ensures var last := |spawns| - 1;
            SpawnCount(SpawnAll(s, spawns).issued, v) ==
            SpawnCount(SpawnAll(s, spawns[..last]).issued, v) + if spawns[last] == v then 1 else 0
  {
    var last := |spawns| - 1;
    var before := SpawnAll(s, spawns[..last]);
    var k := Ticket(spawns[last], before.tokenSeq + 1, before.tasks[spawns[last]].attempt);
    assert SpawnAll(s, spawns).issued == before.issued + [k];
    hide SpawnAll;
    assert (before.issued + [k])[..|before.issued|] == before.issued;
  }

  lemma SettleTries(def: Definition, order: seq<NodeId>, s: Run, v: NodeId)
    requires Shaped(def, order, s) && v in s.tasks && |RunningSet(s.tasks)| <= MaxRunning(def)
    requires HasKind(def, v, Agent) && Tried(def, s, v)
    ensures Tried(def, SettleStep(def, order, s), v)
  {
    hide WellFormed, HasKind, Settle, Converged, Progress, Called, SourcesOver, RetryLimit, SpawnCount, Acts;
    EnumerationCovers(def, order, s);
    SettleStarts(def, order, s, v);
    SettleEffect(def, order, s.tasks, v);
    SettleCorrect(def, order, s.tasks);
    var r := Settle(def, order, s.tasks);
    NotHuman(def, v);
    SpawnAllTries(s.(tasks := r.tasks), r.spawns, v);
  }

  lemma CompleteTries(def: Definition, s: Run, k: Ticket, outcome: Outcome, v: NodeId)
    requires v in s.tasks && HasKind(def, v, Agent) && Tried(def, s, v) && AttemptsBounded(def, s.tasks)
    ensures Tried(def, CompleteStep(def, s, k, outcome), v)
  {
    hide HasKind, RetryLimit, NodeOf, SpawnCount;
  }

  lemma RespondTries(def: Definition, s: Run, ev: Event, v: NodeId)
    requires ev.Respond? && v in s.tasks && HasKind(def, v, Agent) && Tried(def, s, v) && AttemptsBounded(def, s.tasks)
    ensures v in RespondStep(def, s, ev.node, ev.decision, ev.feedback).tasks
    ensures Tried(def, RespondStep(def, s, ev.node, ev.decision, ev.feedback), v)
  {
    hide HasKind, RetryLimit, Reaches, ExcludeTokens, NodeOf, SpawnCount;
    NotHuman(def, v);
  }

  lemma OtherTries(def: Definition, order: seq<NodeId>, s: Run, ev: Event, v: NodeId)
    requires Shaped(def, order, s) && v in s.tasks && HasKind(def, v, Agent) && Tried(def, s, v)
    requires AttemptsBounded(def, s.tasks) && !ev.SettleNow?
    ensures Tried(def, Step(def, order, s, ev), v)
  {
    hide WellFormed, HasKind, RetryLimit, SpawnCount, RespondStep, CompleteStep, AttemptsBounded;
    if ev.Complete? {
      CompleteTries(def, s, ev.ticket, ev.outcome, v);
    } else if ev.Respond? {
      RespondTries(def, s, ev, v);
    }
  }

  lemma {:induction false} RunTries(def: Definition, order: seq<NodeId>, events: seq<Event>, v: NodeId)
    requires WellFormed(def) && IsEnumeration(def, order) && IsRun(def, order, events)
    requires v in Ids(def) && HasKind(def, v, Agent)
    ensures Tried(def, After(def, order, events), v)
  {
    hide WellFormed, HasKind, IsRun, After, Tried, AttemptsBounded, RetryLimit;
    if events == [] {
      FreshTasks(def, order, v);
      FreshTries(def, order, v);
    } else {
      LastEvent(def, order, events, v);
      hide Allowed, Enabled, Step;
      var last := |events| - 1;
      RunTries(def, order, events[..last], v);
      var s := After(def, order, events[..last]);
      if events[last].SettleNow? {
        SettleTries(def, order, s, v);
        StepIsSettle(def, order, s);
      } else {
        OtherTries(def, order, s, events[last], v);
      }
    }
  }

  lemma FreshTries(def: Definition, order: seq<NodeId>, v: NodeId)
    requires WellFormed(def) && IsEnumeration(def, order) && v in Ids(def)
    ensures Tried(def, After(def, order, []), v)
  {
  }

  lemma StepIsSettle(def: Definition, order: seq<NodeId>, s: Run)
    requires Shaped(def, order, s)
    ensures Covers(order, s.tasks) && Step(def, order, s, SettleNow) == SettleStep(def, order, s)
  {
    hide Settle;
    EnumerationCovers(def, order, s);
  }

  /** An agent fails only after min(retries, 10) + 1 executions, and one that succeeded or runs has been
      executed once for each attempt. */
  lemma AgentTries(def: Definition, order: seq<NodeId>, events: seq<Event>, v: NodeId)
    requires WellFormed(def) && IsEnumeration(def, order) && IsRun(def, order, events)
    requires v in Ids(def) && HasKind(def, v, Agent)
    ensures var s := After(def, order, events);
            var t, n := s.tasks[v], SpawnCount(s.issued, v);
            && (t.status.Failed? ==> n == t.attempt == (if def.retries < 10 then def.retries else 10) + 1)
            && (t.status.Running? || t.status.Succeeded? ==> n == t.attempt)
            && (t.status.Queued? ==> n == t.attempt - 1)
  {
    hide After, IsRun, WellFormed, HasKind, SpawnCount;
    RunTries(def, order, events, v);
  }
}
