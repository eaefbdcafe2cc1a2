/** The execution-token protocol of the run loop: spawned executions and their outcomes
    (src/mission.rs:790-799, 1100-1177, 1300-1313). */
module SchedulerTokens {
  import opened Text
  import opened Flow
  import opened Graph
  import opened Convergence
  import opened Scheduler

  type Tokens = map<NodeId, nat>

  /** Tokens grow along the spawn record. */
  ghost predicate IssuedInOrder(issued: seq<Ticket>, last: nat) {
    && (forall i :: 0 <= i < |issued| ==> 1 <= issued[i].token <= last)
    && (forall i, j :: 0 <= i < j < |issued| ==> issued[i].token < issued[j].token)
  }

  /** What is in flight was spawned, is there once, and has not been applied. */
  ghost predicate FlightRecorded(inflight: multiset<Ticket>, issued: seq<Ticket>, applied: seq<Ticket>) {
    forall k :: k in inflight ==> inflight[k] == 1 && k in issued && k !in applied
  }

  /** Only spawned executions are applied, none of them twice. */
  ghost predicate AppliedOnce(issued: seq<Ticket>, applied: seq<Ticket>) {
    && (forall k <- applied :: k in issued)
    && (forall i, j :: 0 <= i < j < |applied| ==> applied[i] != applied[j])
  }

  /** The current execution of `v` is in flight. */
  ghost predicate Covered(tasks: Tasks, tokens: Tokens, inflight: multiset<Ticket>, v: NodeId) {
    v in tasks && v in tokens && Ticket(v, tokens[v], tasks[v].attempt) in inflight
  }

  ghost predicate RunningCovered(tasks: Tasks, tokens: Tokens, inflight: multiset<Ticket>) {
    forall v <- RunningSet(tasks) :: Covered(tasks, tokens, inflight, v)
  }

  ghost predicate Recorded(s: Run) {
    && IssuedInOrder(s.issued, s.tokenSeq)
    && FlightRecorded(s.inflight, s.issued, s.applied)
    && AppliedOnce(s.issued, s.applied)
  }

  /** Until a cancellation is requested, every running task has its outcome outstanding. */
  ghost predicate TokenInv(s: Run) {
    Recorded(s) && (!s.cancelled ==> RunningCovered(s.tasks, s.tokens, s.inflight))
  }

  lemma SpawnNodeKeeps(s: Run, v: NodeId)
    requires Recorded(s) && v in s.tasks
    ensures var r := SpawnNode(s, v);
            && Recorded(r) && Covered(r.tasks, r.tokens, r.inflight, v)
            && forall w :: w != v && Covered(s.tasks, s.tokens, s.inflight, w) ==>
                             Covered(r.tasks, r.tokens, r.inflight, w)
  {
    var k := Ticket(v, s.tokenSeq + 1, s.tasks[v].attempt);
    var r := SpawnNode(s, v);
    assert k !in s.issued;
    hide IssuedInOrder, Covered;
    SpawnCovers(s, v);
    assert IssuedInOrder(r.issued, r.tokenSeq) by { IssueOne(s.issued, s.tokenSeq, k); }
    assert k !in s.applied && k !in s.inflight;
    FlightGrows(s.inflight, s.issued, s.applied, k);
    assert AppliedOnce(r.issued, r.applied);
  }

  lemma SpawnCovers(s: Run, v: NodeId)
    requires v in s.tasks
    ensures var r := SpawnNode(s, v);
            && Covered(r.tasks, r.tokens, r.inflight, v)
            && forall w :: w != v && Covered(s.tasks, s.tokens, s.inflight, w) ==>
                             Covered(r.tasks, r.tokens, r.inflight, w)
  {
  }

  lemma FlightGrows(inflight: multiset<Ticket>, issued: seq<Ticket>, applied: seq<Ticket>, k: Ticket)
    requires FlightRecorded(inflight, issued, applied) && k !in inflight && k !in applied
    ensures FlightRecorded(inflight + multiset{k}, issued + [k], applied)
  {
  }

  lemma IssueOne(issued: seq<Ticket>, last: nat, k: Ticket)
    requires IssuedInOrder(issued, last) && k.token == last + 1
    ensures IssuedInOrder(issued + [k], last + 1)
  {
  }

  lemma {:induction false} SpawnAllKeeps(s: Run, spawns: seq<NodeId>)
    requires Recorded(s) && Distinct(spawns) && forall v <- spawns :: v in s.tasks
    ensures var r := SpawnAll(s, spawns);
            && Recorded(r)
            && (forall v <- spawns :: Covered(r.tasks, r.tokens, r.inflight, v))
            && (forall w :: w !in spawns && Covered(s.tasks, s.tokens, s.inflight, w) ==>
                  Covered(r.tasks, r.tokens, r.inflight, w))
    decreases |spawns|
  {
    hide Recorded, Covered, SpawnNode;
    if spawns != [] {
      var init, v := spawns[..|spawns| - 1], spawns[|spawns| - 1];
      SpawnAllKeeps(s, init);
      SpawnNodeKeeps(SpawnAll(s, init), v);
      assert forall w :: w in spawns <==> w in init || w == v;
    }
  }

  /** After settling, whoever runs was just spawned or was running and is still covered. */
  lemma SettleKeepsCovered(def: Definition, order: seq<NodeId>, s: Run)
    requires Shaped(def, order, s) && Covers(order, s.tasks) && RunningCovered(s.tasks, s.tokens, s.inflight)
    requires SpawnsAre(Settle(def, order, s.tasks).spawns, s.tasks, Settle(def, order, s.tasks).tasks)
    ensures var r := Settle(def, order, s.tasks);
            forall v <- RunningSet(r.tasks) :: v in r.spawns || Covered(r.tasks, s.tokens, s.inflight, v)
  {
    hide Settle, WellFormed, Allowed;
    var r := Settle(def, order, s.tasks);
    forall v | v in RunningSet(r.tasks) && v !in r.spawns ensures Covered(r.tasks, s.tokens, s.inflight, v) {
      assert v in RunningSet(s.tasks);
      SettleAllowed(def, order, s.tasks, v);
    }
  }

  lemma SettleKeepsTokens(def: Definition, order: seq<NodeId>, s: Run)
    requires Shaped(def, order, s) && TokenInv(s)
    ensures TokenInv(SettleStep(def, order, s))
  {
    hide Settle, WellFormed, Progress, Converged, Covered, RunningSet, IssuedInOrder, FlightRecorded, AppliedOnce;
    EnumerationCovers(def, order, s);
    SettleCorrect(def, order, s.tasks);
    var r := Settle(def, order, s.tasks);
    if !s.cancelled {
      SettleKeepsCovered(def, order, s);
    }
    NoneRunning(r.tasks);
    SpawnAllKeeps(s.(tasks := r.tasks), r.spawns);
  }

  lemma NoneRunning(tasks: Tasks)
    ensures AllTerminal(tasks) ==> RunningSet(tasks) == {}
  {
  }

  /** Receiving an outcome takes exactly that execution out of flight. */
  lemma Receive(s: Run, k: Ticket)
    requires Recorded(s) && k in s.inflight
    ensures var inflight := s.inflight - multiset{k};
            && (forall x :: x in inflight <==> x in s.inflight && x != k)
            && FlightRecorded(inflight, s.issued, s.applied)
            && FlightRecorded(inflight, s.issued, s.applied + [k])
            && AppliedOnce(s.issued, s.applied + [k])
  {
    var inflight := s.inflight - multiset{k};
    assert forall x :: x in inflight <==> x in s.inflight && x != k;
    assert forall x :: inflight[x] <= s.inflight[x];
  }

  lemma CompleteKeepsCovered(def: Definition, s: Run, k: Ticket, outcome: Outcome, v: NodeId)
    requires k in s.inflight && !s.cancelled && NodeOf(def.nodes, k.node).Some?
    requires forall x :: x in s.inflight - multiset{k} <==> x in s.inflight && x != k
    requires RunningCovered(s.tasks, s.tokens, s.inflight)
    requires v in RunningSet(CompleteStep(def, s, k, outcome).tasks)
    ensures var r := CompleteStep(def, s, k, outcome);
            Covered(r.tasks, r.tokens, r.inflight, v)
  {
    hide RetryLimit, NodeOf;
    assert v in RunningSet(s.tasks);
    assert Covered(s.tasks, s.tokens, s.inflight, v);
  }

  lemma CompleteKeepsTokens(def: Definition, s: Run, k: Ticket, outcome: Outcome)
    requires TokenInv(s) && k in s.inflight && s.tasks.Keys == Ids(def)
    ensures TokenInv(CompleteStep(def, s, k, outcome))
  {
    hide AfterOutcome, IssuedInOrder, FlightRecorded, AppliedOnce, Ids, NodeOf, RunningSet, Covered;
    Receive(s, k);
    var r := CompleteStep(def, s, k, outcome);
    if k.node in s.tasks {
      NodeOfKnown(def, k.node);
      if !s.cancelled {
        forall v | v in RunningSet(r.tasks) ensures Covered(r.tasks, r.tokens, r.inflight, v) {
          CompleteKeepsCovered(def, s, k, outcome, v);
        }
      }
    } else if !s.cancelled {
      StrayOutcome(s, k);
    }
  }

  lemma StrayOutcome(s: Run, k: Ticket)
    requires k !in s.inflight - multiset{k} && k.node !in s.tasks
    requires forall x :: x in s.inflight - multiset{k} <==> x in s.inflight && x != k
    requires RunningCovered(s.tasks, s.tokens, s.inflight)
    ensures RunningCovered(s.tasks, s.tokens, s.inflight - multiset{k})
  {
  }

  lemma RespondKeepsTokens(def: Definition, s: Run, v: NodeId, decision: string, feedback: Option<string>)
    requires TokenInv(s)
    ensures TokenInv(RespondStep(def, s, v, decision, feedback))
  {
    hide Reaches, NodeOf, IssuedInOrder, FlightRecorded, AppliedOnce;
    var r := RespondStep(def, s, v, decision, feedback);
    if !s.cancelled {
      forall w | w in RunningSet(r.tasks) ensures Covered(r.tasks, r.tokens, r.inflight, w) {
        RespondKeepsRunning(def, s, v, decision, feedback, w);
        hide RespondStep;
        assert w in RunningSet(s.tasks);
      }
    }
  }

  /** A decision never starts a task, and leaves what keeps running untouched. */
  lemma RespondKeepsRunning(def: Definition, s: Run, v: NodeId, decision: string, feedback: Option<string>, w: NodeId)
    ensures var r := RespondStep(def, s, v, decision, feedback);
            w in r.tasks && r.tasks[w].status.Running? ==>
              && w in s.tasks && s.tasks[w] == r.tasks[w]
              && (w in s.tokens ==> w in r.tokens && r.tokens[w] == s.tokens[w])
  {
    hide Reaches, NodeOf;
  }

  lemma StopKeepsTokens(s: Run)
    requires TokenInv(s)
    ensures TokenInv(StopStep(s))
  {
    assert RunningSet(CancelTasks(s.tasks)) == {};
  }

  lemma StepKeepsTokens(def: Definition, order: seq<NodeId>, s: Run, ev: Event)
    requires Shaped(def, order, s) && Enabled(s, ev) && TokenInv(s)
    ensures TokenInv(Step(def, order, s, ev))
  {
    hide SettleStep, RespondStep, CompleteStep, StopStep, WellFormed, RunningCovered;
    hide IssuedInOrder, FlightRecorded, AppliedOnce;
    match ev
    case SettleNow => SettleKeepsTokens(def, order, s);
    case Respond(v, decision, feedback) => RespondKeepsTokens(def, s, v, decision, feedback);
    case Complete(k, outcome) => CompleteKeepsTokens(def, s, k, outcome);
    case RequestCancel =>
    case Stop => StopKeepsTokens(s);
  }

  /** The token protocol over whole runs. */
  lemma {:induction false} RunKeepsTokens(def: Definition, order: seq<NodeId>, events: seq<Event>)
    requires WellFormed(def) && IsEnumeration(def, order) && IsRun(def, order, events)
    ensures TokenInv(After(def, order, events))
    decreases |events|
  {
    hide Step, Enabled;
    if events == [] {
      assert forall v <- Ids(def) :: Initial(def).tasks[v].status.Queued?;
      assert RunningSet(Initial(def).tasks) == {};
    } else {
      hide TokenInv;
      var init := events[..|events| - 1];
      RunKeepsTokens(def, order, init);
      StepKeepsTokens(def, order, After(def, order, init), events[|events| - 1]);
    }
  }

  // --- What the protocol is for ----------------------------------------------

  /** The execution that a running task waits for. */
  function CurrentTicket(s: Run, v: NodeId): Ticket
    requires v in s.tasks && v in s.tokens
  {
    Ticket(v, s.tokens[v], s.tasks[v].attempt)
  }

  lemma TokensAreUnique(s: Run, x: Ticket, y: Ticket)
    requires Recorded(s) && x in s.inflight && y in s.inflight && x.token == y.token
    ensures x == y
  {
    var i :| 0 <= i < |s.issued| && s.issued[i] == x;
    var j :| 0 <= j < |s.issued| && s.issued[j] == y;
  }

  /** A running task has exactly one outstanding outcome that carries its current token, and
      that outcome belongs to its current attempt. */
  lemma ExactlyOneOutstanding(def: Definition, order: seq<NodeId>, events: seq<Event>, v: NodeId)
    requires WellFormed(def) && IsEnumeration(def, order) && IsRun(def, order, events)
    requires var s := After(def, order, events);
             !s.cancelled && v in s.tasks && s.tasks[v].status.Running?
    ensures var s := After(def, order, events);
            && v in s.tokens && s.inflight[CurrentTicket(s, v)] == 1
            && forall k :: k in s.inflight && k.token == s.tokens[v] ==> k == CurrentTicket(s, v)
  {
    hide After, IsRun, IssuedInOrder, AppliedOnce;
    RunKeepsTokens(def, order, events);
    var s := After(def, order, events);
    assert v in RunningSet(s.tasks) && Covered(s.tasks, s.tokens, s.inflight, v);
    forall k | k in s.inflight && k.token == s.tokens[v] ensures k == CurrentTicket(s, v) {
      TokensAreUnique(s, k, CurrentTicket(s, v));
    }
  }

  /** An outcome changes a task exactly when it is the current execution of a running task and
      no cancellation was requested; then only that task changes. Every other outcome (late,
      superseded, excluded, cancelled) is dropped. */
  lemma OutcomeAppliesIffCurrent(def: Definition, order: seq<NodeId>, events: seq<Event>, k: Ticket, outcome: Outcome)
    requires WellFormed(def) && IsEnumeration(def, order) && IsRun(def, order, events)
    requires k in After(def, order, events).inflight
    ensures var s := After(def, order, events);
            var r := CompleteStep(def, s, k, outcome);
            && (r.tasks != s.tasks <==>
                !s.cancelled && k.node in s.tasks && s.tasks[k.node].status.Running?
                && k.node in s.tokens && k == CurrentTicket(s, k.node))
            && (r.tasks != s.tasks ==> r.tasks == s.tasks[k.node := AfterOutcome(def, s.tasks[k.node], outcome)])
            && (r.applied == s.applied <==> r.tasks == s.tasks)
  {
    hide After, IsRun, WellFormed, NodeOf, RetryLimit;
    var s := After(def, order, events);
    if k.node in s.tasks {
      NodeOfKnown(def, k.node);
      if Applies(s, k) {
        ExactlyOneOutstanding(def, order, events, k.node);
      }
    }
  }
}
