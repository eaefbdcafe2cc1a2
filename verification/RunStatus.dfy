/** The status that is reported for a run (src/mission.rs:1340-1398), over the runs of the scheduler. */
module RunStatus {
  import opened Conditions
  import opened Flow
  import opened Graph
  import opened Convergence
  import opened Scheduler
  import opened SchedulerSafety

  datatype Report = Interrupted | RunCancelled | StillRunning | RunFailed | RunSucceeded

  function DeriveRunStatus(tasks: Tasks, interrupted: bool, ended: bool, cancelled: bool): Report {
    if interrupted then Interrupted
    else if cancelled then RunCancelled
    else if AllTerminal(tasks) then
      if !ended then StillRunning
      else if exists v <- tasks :: tasks[v].status.Failed? || tasks[v].status.Excluded? then RunFailed
      else RunSucceeded
    else StillRunning
  }

  /** An interruption outranks everything, a recorded cancellation all else, and an end counts only once every
      task has come to rest. */
  lemma StatusMeans(tasks: Tasks, interrupted: bool, ended: bool, cancelled: bool)
    ensures var report := DeriveRunStatus(tasks, interrupted, ended, cancelled);
            var rests := forall v <- tasks :: tasks[v].status in {Succeeded, Failed, Cancelled, Excluded};
            var broken := exists v <- tasks :: tasks[v].status in {Failed, Excluded};
            && (report == Interrupted <==> interrupted)
            && (report == RunCancelled <==> !interrupted && cancelled)
            && (report == RunFailed <==> !interrupted && !cancelled && rests && ended && broken)
            && (report == RunSucceeded <==> !interrupted && !cancelled && rests && ended && !broken)
  {
  }

  /** What the scheduler found when it ended the run: whether it was cancelled by then. */
  ghost function EndedCancelled(def: Definition, order: seq<NodeId>, events: seq<Event>): bool
    requires WellFormed(def) && IsEnumeration(def, order)
  {
    After(def, order, events).finished &&
    (events == [] ||
     var init := events[..|events| - 1];
     if After(def, order, init).finished then EndedCancelled(def, order, init) else After(def, order, events).cancelled)
  }

  /** The recorded facts of a run, and its tasks. */
  ghost function Reported(def: Definition, order: seq<NodeId>, events: seq<Event>): Report
    requires WellFormed(def) && IsEnumeration(def, order)
  {
    var s := After(def, order, events);
    var cancelled := EndedCancelled(def, order, events);
    DeriveRunStatus(s.tasks, false, s.finished && !cancelled, cancelled)
  }

  /** The run is cancelled exactly if a cancellation was requested. */
  lemma {:induction false} CancelledByRequest(def: Definition, order: seq<NodeId>, events: seq<Event>)
    requires WellFormed(def) && IsEnumeration(def, order)
    ensures After(def, order, events).cancelled <==> RequestCancel in events
  {
    hide Step, WellFormed, IsEnumeration;
    if events != [] {
      var last := |events| - 1;
      CancelledByRequest(def, order, events[..last]);
      StepCancels(def, order, After(def, order, events[..last]), events[last]);
      assert events == events[..last] + [events[last]];
    }
  }

  lemma StepCancels(def: Definition, order: seq<NodeId>, s: Run, ev: Event)
    requires Shaped(def, order, s)
    ensures Step(def, order, s, ev).cancelled <==> s.cancelled || ev == RequestCancel
  {
    hide Settle, NodeOf, Reaches, RetryLimit, WellFormed;
    EnumerationCovers(def, order, s);
  }

  /** Some beginning of the run ends it, and holds a request for cancellation. */
  ghost predicate RequestedInTime(def: Definition, order: seq<NodeId>, events: seq<Event>)
    requires WellFormed(def) && IsEnumeration(def, order)
  {
    exists n :: 0 <= n <= |events| && EndsAt(def, order, events, n) && RequestCancel in events[..n]
  }

  /** The `n`th event is the one that ends the run. */
  ghost predicate EndsAt(def: Definition, order: seq<NodeId>, events: seq<Event>, n: nat)
    requires WellFormed(def) && IsEnumeration(def, order)
  {
    && n <= |events| && After(def, order, events[..n]).finished
    && (n > 0 ==> !After(def, order, events[..n - 1]).finished)
  }

  lemma {:induction false} EndIsFinal(def: Definition, order: seq<NodeId>, events: seq<Event>, n: nat)
    requires WellFormed(def) && IsEnumeration(def, order) && n <= |events|
    requires After(def, order, events[..n]).finished
    ensures After(def, order, events).finished
    decreases |events|
  {
    hide Step;
    if n < |events| {
      var last := |events| - 1;
      assert events[..last][..n] == events[..n];
      EndIsFinal(def, order, events[..last], n);
      StepEnds(def, order, After(def, order, events[..last]), events[last]);
    } else {
      assert events[..n] == events;
    }
  }

  lemma StepEnds(def: Definition, order: seq<NodeId>, s: Run, ev: Event)
    requires Shaped(def, order, s) && s.finished
    ensures Step(def, order, s, ev).finished
  {
    hide Settle, NodeOf, Reaches, RetryLimit, WellFormed;
    EnumerationCovers(def, order, s);
  }

  /** The flag that is recorded tells whether a cancellation was requested before the run ended. */
  lemma {:induction false} RecordedInTime(def: Definition, order: seq<NodeId>, events: seq<Event>)
    requires WellFormed(def) && IsEnumeration(def, order)
    ensures EndedCancelled(def, order, events) <==> RequestedInTime(def, order, events)
    decreases |events|
  {
    hide After, WellFormed, IsEnumeration;
    NotEndedAtFirst(def, order);
    if events != [] {
      var last := |events| - 1;
      var init := events[..last];
      assert forall n :: 0 <= n <= last ==> init[..n] == events[..n];
      assert events[..|events|] == events;
      CancelledByRequest(def, order, events);
      if After(def, order, init).finished {
        RecordedInTime(def, order, init);
        assert forall n :: 0 <= n <= last ==> (EndsAt(def, order, init, n) <==> EndsAt(def, order, events, n));
        EndIsFinal(def, order, events, last);
      } else {
        forall n | 0 <= n <= last ensures !After(def, order, events[..n]).finished {
          if After(def, order, init[..n]).finished {
            EndIsFinal(def, order, init, n);
          }
        }
      }
    }
  }

  lemma NotEndedAtFirst(def: Definition, order: seq<NodeId>)
    requires WellFormed(def) && IsEnumeration(def, order)
    ensures !After(def, order, []).finished
  {
  }

  /** In every reachable state of a run that was not interrupted: the run is reported as running exactly
      until the scheduler ends it; then as cancelled exactly when a cancellation was requested before
      that; and otherwise as succeeded exactly when no task failed or was excluded, each having succeeded
      or been cut off. */
  lemma ReportIsFaithful(def: Definition, order: seq<NodeId>, events: seq<Event>)
    requires WellFormed(def) && IsEnumeration(def, order)
    ensures var s, report := After(def, order, events), Reported(def, order, events);
            && (report == StillRunning <==> !s.finished)
            && (report == RunCancelled <==> RequestedInTime(def, order, events))
            && (report == RunSucceeded <==>
                  && s.finished && !RequestedInTime(def, order, events)
                  && forall v <- s.tasks :: s.tasks[v].status.Succeeded? || s.tasks[v].status.Cancelled?)
  {
    hide After, WellFormed, IsEnumeration, RequestedInTime;
    FinishedIsTerminal(def, order, events);
    RecordedInTime(def, order, events);
    var s := After(def, order, events);
    assert s.finished ==> AllTerminal(s.tasks);
  }
}
