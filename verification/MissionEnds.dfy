/** The run loop comes to its end while it is answered (src/mission.rs:740-817). */
module MissionEnds {
  import opened Text
  import opened Conditions
  import opened Flow
  import opened Graph
  import opened Convergence
  import opened Scheduler
  import opened SchedulerLiveness
  import opened Mission

  /** A turn of the loop that meets nothing but `answer`, after settling. */
  function Quiet(answer: Event): Turn {
    Turn(false, [], false, answer)
  }

  function QuietTurns(answers: seq<Event>): seq<Turn> {
    if answers == [] then [] else [Quiet(answers[0])] + QuietTurns(answers[1..])
  }

  lemma {:induction false} QuietLoopIsRounds(def: Definition, order: seq<NodeId>,
                                                   trace: seq<Event>, answers: seq<Event>)
    requires WellFormed(def) && IsEnumeration(def, order) && IsRun(def, order, trace)
    requires !After(def, order, trace).finished && !After(def, order, trace).cancelled
    requires Answered(def, order, trace, answers)
    ensures LoopFrom(def, order, trace, QuietTurns(answers)) == Rounds(def, order, trace, answers)
    decreases |answers|
  {
    hide *;
    if answers == [] {
      LoopEnds(def, order, trace);
      NoRounds(def, order, trace);
    } else {
      FirstRound(def, order, trace, answers);
      var settled := trace + [SettleNow];
      var turns := QuietTurns(answers);
      FirstTurn(answers);
      LoopCases(def, order, trace, turns);
      NothingQueued(trace);
      if !After(def, order, settled).finished {
        AnswerExtends(def, order, trace, answers[0]);
        QuietLoopIsRounds(def, order, settled + [answers[0]], answers[1..]);
      }
    }
  }

  lemma NothingQueued(trace: seq<Event>)
    ensures trace + Responds([]) + [SettleNow] == trace + [SettleNow]
  {
    assert trace + [] == trace;
    RespondsNone(trace);
  }

  lemma NoRounds(def: Definition, order: seq<NodeId>, trace: seq<Event>)
    requires WellFormed(def) && IsEnumeration(def, order)
    ensures Rounds(def, order, trace, []) == trace && QuietTurns([]) == []
  {
  }

  lemma FirstTurn(answers: seq<Event>)
    requires answers != []
    ensures var turns := QuietTurns(answers);
            turns != [] && turns[0] == Turn(false, [], false, answers[0]) && turns[1..] == QuietTurns(answers[1..])
  {
  }

  lemma FirstRound(def: Definition, order: seq<NodeId>, trace: seq<Event>, answers: seq<Event>)
    requires WellFormed(def) && IsEnumeration(def, order) && answers != [] && Answered(def, order, trace, answers)
    ensures var settled := trace + [SettleNow];
            && Rounds(def, order, trace, answers) ==
               (if After(def, order, settled).finished then settled
                else Rounds(def, order, settled + [answers[0]], answers[1..]))
            && (!After(def, order, settled).finished ==>
                  && Answers(After(def, order, settled), answers[0])
                  && Answered(def, order, settled + [answers[0]], answers[1..])
                  && (answers[0].Respond? ||
                      (answers[0].Complete? && answers[0].ticket in After(def, order, settled).inflight)))
  {
    hide After, WellFormed, IsEnumeration;
  }

  lemma AnswerExtends(def: Definition, order: seq<NodeId>, trace: seq<Event>, answer: Event)
    requires WellFormed(def) && IsEnumeration(def, order) && IsRun(def, order, trace)
    requires !After(def, order, trace).finished && !After(def, order, trace).cancelled
    requires var s := After(def, order, trace + [SettleNow]); !s.finished && Answers(s, answer)
    ensures var run := trace + [SettleNow] + [answer];
            IsRun(def, order, run) && !After(def, order, run).finished && !After(def, order, run).cancelled
  {
    hide After, IsRun, Answers, WellFormed, IsEnumeration, Enabled, Settle;
    var s := After(def, order, trace);
    SettleEnabled(s);
    AppendEvent(def, order, trace, SettleNow);
    EnumerationCovers(def, order, s);
    NotCancelledBySettle(def, order, s);
    var s1 := After(def, order, trace + [SettleNow]);
    assert s1 == SettleStep(def, order, s);
    hide SettleStep;
    AnswerProgress(def, order, s1, answer);
    AppendEvent(def, order, trace + [SettleNow], answer);
  }

  /** A run loop over an acyclic flow ends within n(2R + 3) turns, and two more for each feedback, as long as
      each turn brings it one of the outcomes or decisions that it waits for. */
  lemma AnsweredLoopEnds(def: Definition, order: seq<NodeId>, answers: seq<Event>)
    requires WellFormed(def) && IsEnumeration(def, order) && Acyclic(def)
    requires Answered(def, order, [], answers)
    requires |answers| >= RoundBound(def, order) + 2 * FeedbackAnswers(answers)
    ensures var s := After(def, order, LoopFrom(def, order, [], QuietTurns(answers)));
            s.finished && AllTerminal(s.tasks)
  {
    hide *;
    FreshRun(def, order);
    QuietLoopIsRounds(def, order, [], answers);
    AnsweredRunEndsFromStart(def, order, answers);
  }
}
