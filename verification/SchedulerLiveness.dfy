/** Termination of the run loop: a bound on everything that can happen in a run, and a way to
    the end from every point of a run over an acyclic flow (src/mission.rs:740-817). */
module SchedulerLiveness {
  import opened Text
  import opened Conditions
  import opened Flow
  import opened Graph
  import opened Convergence
  import opened Scheduler
  import opened SchedulerTokens
  import opened SchedulerSafety

  /** Events that changed some task. */
  ghost function Changes(def: Definition, order: seq<NodeId>, events: seq<Event>): nat
    requires WellFormed(def) && IsEnumeration(def, order)
  {
    if events == [] then 0
    else
      var init := events[..|events| - 1];
      Changes(def, order, init)
      + (if After(def, order, events).tasks != After(def, order, init).tasks then 1 else 0)
  }

  /** Feedback decisions that re-asked a waiting human. */
  ghost function Feedbacks(def: Definition, order: seq<NodeId>, events: seq<Event>): nat
    requires WellFormed(def) && IsEnumeration(def, order)
  {
    if events == [] then 0
    else
      var init := events[..|events| - 1];
      Feedbacks(def, order, init)
      + (if AcceptedFeedback(After(def, order, init), events[|events| - 1]) then 1 else 0)
  }

  function Completions(events: seq<Event>): nat {
    if events == [] then 0
    else Completions(events[..|events| - 1]) + (if events[|events| - 1].Complete? then 1 else 0)
  }

  lemma {:induction false} InitialPotential(limit: nat, order: seq<NodeId>, tasks: Tasks)
    requires forall v <- order :: v in tasks && tasks[v].status.Queued? && tasks[v].attempt == 1
    ensures Potential(limit, order, tasks) == |order| * (2 * limit + 3)
  {
    if order != [] {
      InitialPotential(limit, order[..|order| - 1], tasks);
    }
  }

  lemma {:induction false} ChangesPaid(def: Definition, order: seq<NodeId>, events: seq<Event>)
    requires WellFormed(def) && IsEnumeration(def, order)
    requires forall v :: v in order <==> v in Ids(def)
    ensures Potential(RetryLimit(def), order, After(def, order, events).tasks) + Changes(def, order, events)
         <= |order| * (2 * RetryLimit(def) + 3) + 2 * Feedbacks(def, order, events)
    decreases |events|
  {
    hide Step, WellFormed, AcceptedFeedback, Ids;
    if events == [] {
      InitialQueued(def);
      hide After, Initial;
      InitialPotential(RetryLimit(def), order, Initial(def).tasks);
      assert After(def, order, []) == Initial(def) by { AfterNothing(def, order); }
    } else {
      hide Potential, RetryLimit;
      var init := events[..|events| - 1];
      ChangesPaid(def, order, init);
      StepPotential(def, order, After(def, order, init), events[|events| - 1]);
    }
  }

  lemma InitialQueued(def: Definition)
    ensures Initial(def).tasks.Keys == Ids(def)
    ensures forall v <- Ids(def) :: Initial(def).tasks[v] == Task(Queued, 1, None, None)
  {
  }

  lemma AfterNothing(def: Definition, order: seq<NodeId>)
    requires WellFormed(def) && IsEnumeration(def, order)
    ensures After(def, order, []) == Initial(def)
  {
  }

  /** No run goes on forever: with `n` nodes and retry limit `R`, at most `n * (2R + 3)` events
      change anything, plus two for each accepted feedback decision. */
  lemma RunIsBounded(def: Definition, order: seq<NodeId>, events: seq<Event>)
    requires WellFormed(def) && IsEnumeration(def, order)
    ensures Changes(def, order, events) <= |order| * (2 * RetryLimit(def) + 3) + 2 * Feedbacks(def, order, events)
  {
    hide After, Changes, Feedbacks, RetryLimit, Potential;
    assert forall v :: v in order <==> v in Ids(def) by {
      assert forall v :: v in (set x <- order) <==> v in order;
    }
    ChangesPaid(def, order, events);
  }

  // --- Conservation of executions --------------------------------------------

  lemma {:induction false} SpawnAllCounts(s: Run, spawns: seq<NodeId>)
    requires forall v <- spawns :: v in s.tasks
    ensures |SpawnAll(s, spawns).issued| == |s.issued| + |spawns|
    ensures |SpawnAll(s, spawns).inflight| == |s.inflight| + |spawns|
  {
    if spawns != [] {
      SpawnAllCounts(s, spawns[..|spawns| - 1]);
    }
  }

  lemma StepCounts(def: Definition, order: seq<NodeId>, s: Run, ev: Event)
    requires Shaped(def, order, s) && Enabled(s, ev)
    ensures var next := Step(def, order, s, ev);
            |next.issued| - |next.inflight| == |s.issued| - |s.inflight| + (if ev.Complete? then 1 else 0)
  {
    hide Settle, WellFormed, Covers, NodeOf, Reaches, RetryLimit;
    EnumerationCovers(def, order, s);
    if ev.SettleNow? {
      var r := Settle(def, order, s.tasks);
      SpawnAllCounts(s.(tasks := r.tasks), r.spawns);
    }
  }

  /** Every execution spawned is outstanding or was received, exactly once. */
  lemma {:induction false} ExecutionsConserved(def: Definition, order: seq<NodeId>, events: seq<Event>)
    requires WellFormed(def) && IsEnumeration(def, order) && IsRun(def, order, events)
    ensures var s := After(def, order, events); |s.issued| == |s.inflight| + Completions(events)
    decreases |events|
  {
    hide Step, Enabled;
    if events != [] {
      var init := events[..|events| - 1];
      ExecutionsConserved(def, order, init);
      StepCounts(def, order, After(def, order, init), events[|events| - 1]);
    }
  }

  // --- A way to the end ------------------------------------------------------

  /** An event that the scheduler is waiting for: the outcome of a running execution, whatever it is,
      or the decision that ends the wait for a human. */
  ghost predicate Awaited(s: Run, ev: Event) {
    match ev
    case Complete(k, _) => k in s.inflight && k.node in s.tasks && k.node in s.tokens && k == CurrentTicket(s, k.node)
                           && s.tasks[k.node].status.Running?
    case Respond(v, decision, _) =>
      (decision == "approve" || decision == "exclude") && v in s.tasks && s.tasks[v].status.WaitingHuman?
    case _ => false
  }

  lemma AppendEvent(def: Definition, order: seq<NodeId>, events: seq<Event>, ev: Event)
    requires WellFormed(def) && IsEnumeration(def, order) && IsRun(def, order, events)
    requires Enabled(After(def, order, events), ev)
    ensures IsRun(def, order, events + [ev])
    ensures After(def, order, events + [ev]) == Step(def, order, After(def, order, events), ev)
  {
    hide Step, Enabled, WellFormed;
    assert (events + [ev])[..|events + [ev]| - 1] == events;
  }

  /** An awaited event is enabled and changes a task. */
  lemma AwaitedProgress(def: Definition, order: seq<NodeId>, s: Run, ev: Event)
    requires Shaped(def, order, s) && !s.finished && !s.cancelled && Awaited(s, ev)
    ensures Enabled(s, ev) && !AcceptedFeedback(s, ev)
    ensures var next := Step(def, order, s, ev);
            next.tasks != s.tasks && !next.finished && !next.cancelled
  {
    hide WellFormed, NodeOf, Settle, Reaches, RetryLimit;
    var v := if ev.Complete? then ev.ticket.node else ev.node;
    NodeOfKnown(def, v);
    ReachesSelf(def, v);
    assert Step(def, order, s, ev).tasks[v] != s.tasks[v];
  }

  /** After settling an unfinished run over an acyclic flow, something is awaited, and its
      outcome or decision is available to the environment. */
  lemma SettledAwaits(def: Definition, order: seq<NodeId>, events: seq<Event>) returns (ev: Event)
    requires WellFormed(def) && IsEnumeration(def, order) && Acyclic(def) && IsRun(def, order, events)
    requires var s := After(def, order, events); !s.finished && !s.cancelled
    requires var next := SettleStep(def, order, After(def, order, events)); !next.finished
    ensures Awaited(SettleStep(def, order, After(def, order, events)), ev)
  {
    hide After, WellFormed, Acyclic, IsRun, Settle, Covers, SpawnAll;
    var s := After(def, order, events);
    EnumerationCovers(def, order, s);
    RunKeepsTokens(def, order, events);
    SettleKeepsTokens(def, order, s);
    NoDeadlock(def, order, s.tasks);
    var next := SettleStep(def, order, s);
    var v :| v in next.tasks && (next.tasks[v].status.Running? || next.tasks[v].status.WaitingHuman?);
    if next.tasks[v].status.Running? {
      NotCancelledBySettle(def, order, s);
      hide SettleStep, Recorded;
      assert v in RunningSet(next.tasks) && Covered(next.tasks, next.tokens, next.inflight, v);
      ev := Complete(CurrentTicket(next, v), Done(Null));
    } else {
      ev := Respond(v, "approve", None);
    }
  }

  lemma NotCancelledBySettle(def: Definition, order: seq<NodeId>, s: Run)
    requires Covers(order, s.tasks)
    ensures SettleStep(def, order, s).cancelled == s.cancelled
  {
  }

  ghost predicate Cooperative(ev: Event) {
    ev.SettleNow? || ev.Complete? || (ev.Respond? && ev.decision != "feedback")
  }

  /** Every run over an acyclic flow that has not been cancelled can be driven to its end by
      outcomes and decisions alone. */
  lemma {:induction false} CanFinish(def: Definition, order: seq<NodeId>, events: seq<Event>) returns (more: seq<Event>)
    requires WellFormed(def) && IsEnumeration(def, order) && Acyclic(def) && IsRun(def, order, events)
    requires !After(def, order, events).cancelled
    requires forall v :: v in order <==> v in Ids(def)
    ensures IsRun(def, order, events + more) && (forall ev <- more :: Cooperative(ev))
    ensures After(def, order, events + more).finished
    ensures AllTerminal(After(def, order, events + more).tasks)
    decreases Potential(RetryLimit(def), order, After(def, order, events).tasks)
  {
    hide After, WellFormed, Acyclic, IsRun, Settle, Potential, RetryLimit, Enabled, AcceptedFeedback, Awaited, Ids;
    hide CompleteStep, RespondStep;
    var s := After(def, order, events);
    if s.finished {
      more := [];
      assert events + more == events;
    } else {
      assert Enabled(s, SettleNow) by { SettleEnabled(s); }
      AppendEvent(def, order, events, SettleNow);
      StepPotential(def, order, s, SettleNow);
      var settled := events + [SettleNow];
      EnumerationCovers(def, order, s);
      NotCancelledBySettle(def, order, s);
      var s1 := After(def, order, settled);
      assert s1 == SettleStep(def, order, s);
      hide SettleStep;
      if s1.finished {
        more := [SettleNow];
      } else {
        var ev := SettledAwaits(def, order, events);
        AwaitedProgress(def, order, s1, ev);
        AppendEvent(def, order, settled, ev);
        StepPotential(def, order, s1, ev);
        SettleNotFeedback(s);
        hide Step;
        var rest := CanFinish(def, order, settled + [ev]);
        more := [SettleNow, ev] + rest;
        assert events + more == settled + [ev] + rest;
        AwaitedIsCooperative(s1, ev);
      }
    }
    FinishedIsTerminal(def, order, events + more);
  }

  lemma SettleEnabled(s: Run)
    requires !s.finished
    ensures Enabled(s, SettleNow)
  {
  }

  lemma SettleNotFeedback(s: Run)
    ensures !AcceptedFeedback(s, SettleNow)
  {
  }

  lemma AwaitedIsCooperative(s: Run, ev: Event)
    requires Awaited(s, ev)
    ensures Cooperative(ev)
  {
  }

  // --- Every answered run ends -------------------------------------------------

  /** The scheduler gets something it waits for; feedback is an answer, too. */
  ghost predicate Answers(s: Run, ev: Event) {
    Awaited(s, ev) || AcceptedFeedback(s, ev)
  }

  /** From `events` on, the scheduler settles and then gets the next answer, until it ends. */
  ghost predicate Answered(def: Definition, order: seq<NodeId>, events: seq<Event>, answers: seq<Event>)
    requires WellFormed(def) && IsEnumeration(def, order)
    decreases |answers|
  {
    answers == [] ||
    var settled := events + [SettleNow];
    After(def, order, settled).finished ||
    (Answers(After(def, order, settled), answers[0]) && Answered(def, order, settled + [answers[0]], answers[1..]))
  }

  /** The events of these rounds. */
  ghost function Rounds(def: Definition, order: seq<NodeId>, events: seq<Event>, answers: seq<Event>): seq<Event>
    requires WellFormed(def) && IsEnumeration(def, order)
    decreases |answers|
  {
    if answers == [] then events
    else
      var settled := events + [SettleNow];
      if After(def, order, settled).finished then settled
      else Rounds(def, order, settled + [answers[0]], answers[1..])
  }

  function FeedbackAnswers(answers: seq<Event>): nat {
    if answers == [] then 0
    else (if answers[0].Respond? && answers[0].decision == "feedback" then 1 else 0) + FeedbackAnswers(answers[1..])
  }

  lemma {:induction false} WeightCounts(limit: nat, order: seq<NodeId>, tasks: Tasks, v: NodeId)
    requires (forall u <- order :: u in tasks) && v in order
    ensures Potential(limit, order, tasks) >= Weight(limit, tasks[v])
  {
    hide Weight;
    var last := |order| - 1;
    if order[last] != v {
      WeightCounts(limit, order[..last], tasks, v);
    }
  }

  /** Whoever is waited for still has at least two phases to go through. */
  lemma AnswerWeighs(def: Definition, order: seq<NodeId>, s: Run, ev: Event)
    requires Shaped(def, order, s) && Answers(s, ev) && forall v :: v in order <==> v in s.tasks
    ensures Potential(RetryLimit(def), order, s.tasks) >= 2
  {
    hide RetryLimit, Potential, WellFormed;
    var v := if ev.Complete? then ev.ticket.node else ev.node;
    WeightCounts(RetryLimit(def), order, s.tasks, v);
  }

  lemma AnswerProgress(def: Definition, order: seq<NodeId>, s: Run, ev: Event)
    requires Shaped(def, order, s) && !s.finished && !s.cancelled && Answers(s, ev)
    ensures Enabled(s, ev)
    ensures var next := Step(def, order, s, ev);
            !next.finished && !next.cancelled && (!AcceptedFeedback(s, ev) ==> next.tasks != s.tasks)
    ensures AcceptedFeedback(s, ev) <==> ev.Respond? && ev.decision == "feedback"
  {
    hide WellFormed, NodeOf, Settle, Reaches, RetryLimit;
    if Awaited(s, ev) {
      AwaitedProgress(def, order, s, ev);
    }
  }

  /** From any point of an uncancelled run of an acyclic flow, every sequence of rounds at least as long as
      the potential, plus two for each feedback, reaches the end: the run cannot fail to end while the
      executors and the humans answer, however they do. */
  lemma {:induction false} AnsweredRunEnds(def: Definition, order: seq<NodeId>, events: seq<Event>, answers: seq<Event>)
    requires WellFormed(def) && IsEnumeration(def, order) && Acyclic(def) && IsRun(def, order, events)
    requires !After(def, order, events).finished && !After(def, order, events).cancelled
    requires forall v :: v in order <==> v in Ids(def)
    requires Answered(def, order, events, answers) && answers != []
    requires |answers| >=
             Potential(RetryLimit(def), order, After(def, order, events).tasks) + 2 * FeedbackAnswers(answers)
    ensures var run := Rounds(def, order, events, answers);
            && IsRun(def, order, run) && After(def, order, run).finished && !After(def, order, run).cancelled
            && AllTerminal(After(def, order, run).tasks)
    decreases |answers|
  {
    hide After, WellFormed, Acyclic, IsRun, Settle, Potential, RetryLimit, Enabled, AcceptedFeedback, Answers, Ids;
    hide CompleteStep, RespondStep;
    var s := After(def, order, events);
    SettleEnabled(s);
    AppendEvent(def, order, events, SettleNow);
    StepPotential(def, order, s, SettleNow);
    SettleNotFeedback(s);
    var settled := events + [SettleNow];
    EnumerationCovers(def, order, s);
    NotCancelledBySettle(def, order, s);
    var s1 := After(def, order, settled);
    assert s1 == SettleStep(def, order, s);
    hide SettleStep;
    if s1.finished {
      FinishedIsTerminal(def, order, settled);
    } else {
      var ev := answers[0];
      AnswerWeighs(def, order, s1, ev);
      AnswerProgress(def, order, s1, ev);
      AppendEvent(def, order, settled, ev);
      StepPotential(def, order, s1, ev);
      hide Step;
      AnsweredRunEnds(def, order, settled + [ev], answers[1..]);
    }
  }

  /** What a fresh run of n nodes with retry limit R can take. */
  function RoundBound(def: Definition, order: seq<NodeId>): nat {
    |order| * (2 * RetryLimit(def) + 3)
  }

  lemma FreshRun(def: Definition, order: seq<NodeId>)
    requires WellFormed(def) && IsEnumeration(def, order)
    ensures IsRun(def, order, []) && (forall v :: v in order <==> v in Ids(def))
    ensures var s := After(def, order, []);
            !s.finished && !s.cancelled && Potential(RetryLimit(def), order, s.tasks) == RoundBound(def, order) > 0
  {
    hide RetryLimit, Potential;
    assert forall v :: v in order <==> v in (set x <- order);
    assert def.nodes[0].id in Ids(def);
    AfterNothing(def, order);
    InitialQueued(def);
    InitialPotential(RetryLimit(def), order, Initial(def).tasks);
    RoundsAreMany(|order|, RetryLimit(def));
  }

  lemma RoundsAreMany(n: nat, limit: nat)
    requires n > 0
    ensures n * (2 * limit + 3) > 0
  {
  }

  /** In particular from the start: n nodes with retry limit R need at most n(2R + 3) rounds, and two more
      for each feedback. */
  lemma AnsweredRunEndsFromStart(def: Definition, order: seq<NodeId>, answers: seq<Event>)
    requires WellFormed(def) && IsEnumeration(def, order) && Acyclic(def)
    requires Answered(def, order, [], answers)
    requires |answers| >= RoundBound(def, order) + 2 * FeedbackAnswers(answers)
    ensures var run := Rounds(def, order, [], answers);
            && IsRun(def, order, run) && After(def, order, run).finished
            && AllTerminal(After(def, order, run).tasks)
  {
    hide *;
    FreshRun(def, order);
    AnsweredRunEnds(def, order, [], answers);
  }
}
