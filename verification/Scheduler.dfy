/** The mission run loop as a state machine over its events (src/mission.rs:735-1335):
    what every step keeps, over all interleavings of settling, executor outcomes, human
    decisions and cancellation. */
module Scheduler {
  import opened Text
  import opened Conditions
  import opened Flow
  import opened Graph
  import opened Convergence

  /** One spawned execution: its node, the token it was given, and the attempt it runs. */
  datatype Ticket = Ticket(node: NodeId, token: nat, attempt: nat)

  datatype Outcome = Done(output: Json) | Error(message: string)

  /** `inflight` holds the executions whose outcome has not been received yet. `issued` and
      `applied` record, in order, the executions spawned and those whose outcome took effect. */
  datatype Run = Run(
    tasks: Tasks,
    tokens: map<NodeId, nat>,
    tokenSeq: nat,
    inflight: multiset<Ticket>,
    cancelled: bool,
    finished: bool,
    issued: seq<Ticket>,
    applied: seq<Ticket>)

  datatype Event =
    | SettleNow
    | Respond(node: NodeId, decision: string, feedback: Option<string>)
    | Complete(ticket: Ticket, outcome: Outcome)
    | RequestCancel
    | Stop

  const MAX_RETRIES := 10

  function RetryLimit(def: Definition): nat {
    if def.retries < MAX_RETRIES then def.retries else MAX_RETRIES
  }

  ghost function Initial(def: Definition): Run {
    Run(map v | v in Ids(def) :: Task(Queued, 1, None, None), map[], 0, multiset{}, false, false, [], [])
  }

  // --- The operations --------------------------------------------------------

  function SpawnNode(s: Run, v: NodeId): Run
    requires v in s.tasks
  {
    var k := Ticket(v, s.tokenSeq + 1, s.tasks[v].attempt);
    s.(tokenSeq := s.tokenSeq + 1, tokens := s.tokens[v := s.tokenSeq + 1],
    inflight := s.inflight + multiset{k}, issued := s.issued + [k])
  }

  function SpawnAll(s: Run, spawns: seq<NodeId>): (r: Run)
    requires forall v <- spawns :: v in s.tasks
    ensures r.tasks == s.tasks && r.cancelled == s.cancelled && r.finished == s.finished && r.applied == s.applied
  {
    if spawns == [] then s
    else SpawnNode(SpawnAll(s, spawns[..|spawns| - 1]), spawns[|spawns| - 1])
  }

  /** One turn of the loop body: settle, then either finish or spawn the ready agents. */
  ghost function SettleStep(def: Definition, order: seq<NodeId>, s: Run): (r: Run)
    requires Covers(order, s.tasks)
    ensures r.tasks == Settle(def, order, s.tasks).tasks
  {
    var settled := Settle(def, order, s.tasks);
    var next := s.(tasks := settled.tasks);
    if AllTerminal(settled.tasks) then next.(finished := true) else SpawnAll(next, settled.spawns)
  }

  function AfterOutcome(def: Definition, t: Task, outcome: Outcome): Task {
    match outcome
    case Done(output) => t.(status := Succeeded, output := Some(output), error := None)
    case Error(message) =>
      if t.attempt <= RetryLimit(def)
      then t.(status := Queued, attempt := t.attempt + 1, error := Some(message))
      else t.(status := Failed, error := Some(message))
  }

  /** Whether a received outcome passes the token, cancellation and status checks. */
  predicate Applies(s: Run, k: Ticket) {
    && k.node in s.tokens && s.tokens[k.node] == k.token
    && !s.cancelled
    && k.node in s.tasks && s.tasks[k.node].status.Running?
  }

  function CompleteStep(def: Definition, s: Run, k: Ticket, outcome: Outcome): Run {
    var received := s.(inflight := s.inflight - multiset{k});
    if !Applies(s, k) || NodeOf(def.nodes, k.node).None? then received
    else received.(tasks := s.tasks[k.node := AfterOutcome(def, s.tasks[k.node], outcome)], applied := s.applied + [k])
  }

  function Approved(): Json {
    Object(map["approved" := Scalar("true")], "{\"approved\":true}")
  }

  predicate Excludable(t: Task) {
    t.status.WaitingHuman? || t.status.Failed? || t.status.Queued?
  }

  ghost function ExcludeBranch(def: Definition, tasks: Tasks, root: NodeId): (r: Tasks)
    ensures r.Keys == tasks.Keys
  {
    map v | v in tasks ::
      if Reaches(def, root, v) && !tasks[v].status.Excluded? && !tasks[v].status.Succeeded?
      then tasks[v].(status := Excluded) else tasks[v]
  }

  /** `entry().or_insert(0)`: excluded tasks without a token get token 0, others keep theirs. */
  ghost function ExcludeTokens(before: Tasks, after: Tasks, tokens: map<NodeId, nat>): map<NodeId, nat> {
    map v | v in tokens.Keys + (set w | w in after && w in before && after[w] != before[w]) ::
      if v in tokens then tokens[v] else 0
  }

  ghost function RespondStep(def: Definition, s: Run, v: NodeId, decision: string, feedback: Option<string>): Run {
    if v !in s.tasks || NodeOf(def.nodes, v).None? then s
    else
      var t := s.tasks[v];
      if decision == "approve" && t.status.WaitingHuman? then
        s.(tasks := s.tasks[v := t.(status := Succeeded, output := Some(Approved()))])
      else if decision == "feedback" && t.status.WaitingHuman? then
        s.(tasks := s.tasks[v := t.(status := Queued, attempt := t.attempt + 1)])
      else if decision == "exclude" && Excludable(t) then
        var tasks := ExcludeBranch(def, s.tasks, v);
        s.(tasks := tasks, tokens := ExcludeTokens(s.tasks, tasks, s.tokens))
      else s
  }

  function CancelTasks(tasks: Tasks): (r: Tasks)
    ensures r.Keys == tasks.Keys
  {
    map v | v in tasks :: if tasks[v].status.Terminal() then tasks[v] else tasks[v].(status := Cancelled)
  }

  /** `cancel_all` poisons every token and settles the rows; the loop then returns. */
  function StopStep(s: Run): Run {
    s.(tokenSeq := s.tokenSeq + 1, tokens := map v | v in s.tokens :: s.tokenSeq + 1,
    tasks := CancelTasks(s.tasks), finished := true)
  }

  // --- Runs ------------------------------------------------------------------

  ghost predicate Enabled(s: Run, ev: Event) {
    match ev
    case SettleNow => !s.finished
    case Respond(_, _, _) => !s.finished
    case Complete(k, _) => k in s.inflight
    case RequestCancel => true
    case Stop => s.cancelled && !s.finished
  }

  ghost predicate Shaped(def: Definition, order: seq<NodeId>, s: Run) {
    WellFormed(def) && s.tasks.Keys == Ids(def) && IsEnumeration(def, order)
  }

  lemma EnumerationCovers(def: Definition, order: seq<NodeId>, s: Run)
    requires Shaped(def, order, s)
    ensures Covers(order, s.tasks)
  {
  }

  ghost function Step(def: Definition, order: seq<NodeId>, s: Run, ev: Event): (r: Run)
    requires Shaped(def, order, s)
    ensures r.tasks.Keys == s.tasks.Keys
  {
    match ev
    case SettleNow => SettleStep(def, order, s)
    case Respond(v, decision, feedback) => RespondStep(def, s, v, decision, feedback)
    case Complete(k, outcome) => CompleteStep(def, s, k, outcome)
    case RequestCancel => s.(cancelled := true)
    case Stop => StopStep(s)
  }

  /** The state after a sequence of events from a fresh run, while every event is enabled. */
  ghost function After(def: Definition, order: seq<NodeId>, events: seq<Event>): (r: Run)
    requires WellFormed(def) && IsEnumeration(def, order)
    ensures r.tasks.Keys == Ids(def)
  {
    if events == [] then Initial(def)
    else Step(def, order, After(def, order, events[..|events| - 1]), events[|events| - 1])
  }

  ghost predicate IsRun(def: Definition, order: seq<NodeId>, events: seq<Event>)
    requires WellFormed(def) && IsEnumeration(def, order)
  {
    events == [] ||
    (IsRun(def, order, events[..|events| - 1])
     && Enabled(After(def, order, events[..|events| - 1]), events[|events| - 1]))
  }

  // --- What every step does to one task --------------------------------------

  /** The status order: terminal tasks never reopen, `Succeeded` and `Excluded` never change,
      attempts grow by one exactly when a task is requeued. */
  ghost predicate Allowed(limit: nat, a: Task, b: Task) {
    || b == a
    || (b.attempt == a.attempt && a.status.Queued? &&
        (b.status.Running? || b.status.WaitingHuman? || b.status.Succeeded? || b.status.Cancelled? ||
         b.status.Excluded?))
    || (b.attempt == a.attempt && a.status.Running? &&
        (b.status.Succeeded? || b.status.Failed? || b.status.Cancelled? || b.status.Excluded?))
    || (b.attempt == a.attempt && a.status.WaitingHuman? &&
        (b.status.Succeeded? || b.status.Cancelled? || b.status.Excluded?))
    || (b.attempt == a.attempt && (a.status.Failed? || a.status.Cancelled?) && b.status.Excluded?)
    || (b.attempt == a.attempt + 1 && a.status.Running? && b.status.Queued? && a.attempt <= limit)
    || (b.attempt == a.attempt + 1 && a.status.WaitingHuman? && b.status.Queued?)
  }

  lemma SettleAllowed(def: Definition, order: seq<NodeId>, tasks: Tasks, v: NodeId)
    requires WellFormed(def) && tasks.Keys == Ids(def) && Covers(order, tasks) && v in tasks
    ensures Allowed(RetryLimit(def), tasks[v], Settle(def, order, tasks).tasks[v])
    ensures var t := Settle(def, order, tasks).tasks[v];
            || t == tasks[v]
            || (tasks[v].status.Queued? && t.attempt == tasks[v].attempt
                && !t.status.Queued? && !t.status.Failed? && !t.status.Excluded?)
  {
    hide Settle, Verdict, WellFormed, Converged, SpawnsAre, RunningSet, Ready, Activated;
    SettleCorrect(def, order, tasks);
    var fin := Settle(def, order, tasks).tasks;
    VerdictShape(def, fin, tasks[v], v);
  }

  ghost predicate AcceptedFeedback(s: Run, ev: Event) {
    && ev.Respond? && ev.decision == "feedback"
    && ev.node in s.tasks && s.tasks[ev.node].status.WaitingHuman?
  }

  lemma RespondAllowed(def: Definition, s: Run, v: NodeId, decision: string, feedback: Option<string>, w: NodeId)
    requires w in s.tasks
    ensures var next := RespondStep(def, s, v, decision, feedback);
            && w in next.tasks
            && Allowed(RetryLimit(def), s.tasks[w], next.tasks[w])
            && (next.tasks[w].status.Queued? && !s.tasks[w].status.Queued? ==>
                  AcceptedFeedback(s, Respond(v, decision, feedback)))
  {
    hide Reaches, RetryLimit, NodeOf, ExcludeTokens;
  }

  lemma CompleteAllowed(def: Definition, s: Run, k: Ticket, outcome: Outcome, v: NodeId)
    requires v in s.tasks
    ensures var next := CompleteStep(def, s, k, outcome);
            && v in next.tasks
            && Allowed(RetryLimit(def), s.tasks[v], next.tasks[v])
            && (s.tasks[v].status.WaitingHuman? ==> next.tasks[v] == s.tasks[v])
  {
    hide RetryLimit, NodeOf;
  }

  /** The status order, and the only way a waiting task is requeued. */
  lemma StepAllowed(def: Definition, order: seq<NodeId>, s: Run, ev: Event, v: NodeId)
    requires Shaped(def, order, s) && v in s.tasks
    ensures var next := Step(def, order, s, ev);
            && Allowed(RetryLimit(def), s.tasks[v], next.tasks[v])
            && (s.tasks[v].status.WaitingHuman? && next.tasks[v].status.Queued? ==> AcceptedFeedback(s, ev))
  {
    hide Settle, WellFormed, RespondStep, CompleteStep, AcceptedFeedback, NodeOf, Covers, RetryLimit;
    match ev
    case SettleNow =>
      assert Covers(order, s.tasks) by { EnumerationCovers(def, order, s); }
      SettleAllowed(def, order, s.tasks, v);
    case Respond(w, decision, feedback) => RespondAllowed(def, s, w, decision, feedback, v);
    case Complete(k, outcome) => CompleteAllowed(def, s, k, outcome, v);
    case RequestCancel =>
    case Stop =>
  }

  // --- Potential and termination ---------------------------------------------

  /** Attempts that a task can still be retried for. */
  function Retries(limit: nat, t: Task): nat {
    if t.attempt <= limit then limit + 1 - t.attempt else 0
  }

  function Weight(limit: nat, t: Task): nat {
    match t.status
    case Queued => 2 * Retries(limit, t) + 3
    case Running => 2 * Retries(limit, t) + 2
    case WaitingHuman => 2 * Retries(limit, t) + 2
    case Failed => 1
    case Cancelled => 1
    case Succeeded => 0
    case Excluded => 0
  }

  function Potential(limit: nat, order: seq<NodeId>, tasks: Tasks): nat
    requires forall v <- order :: v in tasks
  {
    if order == [] then 0
    else Potential(limit, order[..|order| - 1], tasks) + Weight(limit, tasks[order[|order| - 1]])
  }

  lemma AllowedWeight(limit: nat, a: Task, b: Task)
    requires Allowed(limit, a, b)
    ensures b == a || Weight(limit, b) < Weight(limit, a) || (a.status.WaitingHuman? && b.status.Queued?)
    ensures Weight(limit, b) <= Weight(limit, a) + 1
  {
  }

  /** Pointwise falling weights make the sum fall. */
  lemma {:induction false} PotentialFalls(limit: nat, order: seq<NodeId>, a: Tasks, b: Tasks)
    requires Distinct(order) && forall v <- order :: v in a && v in b
    requires forall v <- order :: b[v] == a[v] || Weight(limit, b[v]) < Weight(limit, a[v])
    ensures Potential(limit, order, b) <= Potential(limit, order, a)
    ensures (exists v <- order :: b[v] != a[v]) ==> Potential(limit, order, b) < Potential(limit, order, a)
  {
    hide Weight;
    if order != [] {
      var init, w := order[..|order| - 1], order[|order| - 1];
      PotentialFalls(limit, init, a, b);
      assert forall v :: v in order <==> v in init || v == w;
    }
  }

  lemma {:induction false} PotentialUpdate(limit: nat, order: seq<NodeId>, a: Tasks, v: NodeId, t: Task)
    requires Distinct(order) && (forall w <- order :: w in a) && v in a
    requires Weight(limit, t) <= Weight(limit, a[v]) + 1
    ensures Potential(limit, order, a[v := t]) <= Potential(limit, order, a) + 1
    ensures v !in order ==> Potential(limit, order, a[v := t]) == Potential(limit, order, a)
  {
    hide Weight;
    if order != [] {
      var init, w := order[..|order| - 1], order[|order| - 1];
      PotentialUpdate(limit, init, a, v, t);
    }
  }

  /** Every step that changes a task makes the potential fall; only an accepted feedback
      decision can raise it, and then by at most one. */
  lemma StepPotential(def: Definition, order: seq<NodeId>, s: Run, ev: Event)
    requires Shaped(def, order, s)
    ensures var limit := RetryLimit(def);
            var next := Step(def, order, s, ev);
            if AcceptedFeedback(s, ev) then Potential(limit, order, next.tasks) <= Potential(limit, order, s.tasks) + 1
            else if next.tasks == s.tasks then true
            else Potential(limit, order, next.tasks) < Potential(limit, order, s.tasks)
  {
    var limit := RetryLimit(def);
    var next := Step(def, order, s, ev);
    assert forall v :: v in order <==> v in s.tasks by {
      assert forall v :: v in (set x <- order) <==> v in order;
    }
    hide Weight, WellFormed, Settle, Allowed, RetryLimit;
    if AcceptedFeedback(s, ev) {
      var v := ev.node;
      StepAllowed(def, order, s, ev, v);
      AllowedWeight(limit, s.tasks[v], next.tasks[v]);
      assert next.tasks == s.tasks[v := next.tasks[v]];
      PotentialUpdate(limit, order, s.tasks, v, next.tasks[v]);
    } else {
      hide Step;
      forall v | v in s.tasks && next.tasks[v] != s.tasks[v]
        ensures Weight(limit, next.tasks[v]) < Weight(limit, s.tasks[v])
      {
        StepAllowed(def, order, s, ev, v);
        AllowedWeight(limit, s.tasks[v], next.tasks[v]);
      }
      PotentialFalls(limit, order, s.tasks, next.tasks);
      if next.tasks != s.tasks {
        assert exists v <- s.tasks.Keys :: next.tasks[v] != s.tasks[v];
      }
    }
  }
}
