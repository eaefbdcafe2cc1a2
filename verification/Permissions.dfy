/** The permission-ask lane of the chat bridge (src/channel.rs:595-722, 1834-1932, 1955-1959): one
    pending ask per conversation, shared by the message router, the waiter of each ask, its
    timeout, and the end of the turn. */
module Permissions {
  import opened Text
  import opened Responses

  datatype Ask = Ask(
    conv: string,
    requester: Option<string>,
    isQuestion: bool,
    questions: seq<Question>,
    actions: seq<Action>)

  /** A waiter waits on its ask's channel; once its timer fired it is on its way to the lane map. */
  datatype Waiter = Waiting | Expired | Done

  datatype Sent = Sent(ask: nat, response: Response)

  /** Asks are numbered as they come. `answers` holds the text put into each ask's channel; a channel
      whose ask is neither pending nor answered has lost its sender. */
  datatype State = State(
    asks: seq<Ask>,
    pending: map<string, nat>,
    answers: map<nat, string>,
    waiters: seq<Waiter>,
    responses: seq<Sent>)

  const Initial := State([], map[], map[], [], [])

  /** `lower` is the trimmed message in lower case. `sawQuestion` is the router's earlier look at
      the lane, under a lock it has released since, so it may be out of date. */
  datatype Message = Message(conv: string, sender: Option<string>, text: string, lower: string, sawQuestion: bool)

  datatype Event =
    | Requested(ask: Ask)
    | Replied(message: Message)
    | Woken(number: nat)
    | Expires(number: nat)
    | GivesUp(number: nat)
    | Resolved(conv: string)
    | TurnEnded(conv: string)

  // --- The router ----------------------------------------------------------------

  datatype Handling = NotAReply | NoAsk | Swallowed | UseWebUi | Consumed(answer: string)

  predicate IsWordReply(m: Message) {
    m.lower in ["allow", "deny", "always"]
  }

  predicate IsSkip(m: Message) {
    m.lower == "!skip"
  }

  /** Might answer an ask at all. */
  predicate LooksLikeReply(m: Message) {
    IsWordReply(m) || (m.sawQuestion && (IsSkip(m) || !("!" <= TrimStart(m.text))))
  }

  function Handle(pending: Option<Ask>, m: Message): Handling {
    if !LooksLikeReply(m) then NotAReply
    else match pending
      case None => NoAsk
      case Some(ask) =>
        if ask.requester != m.sender then Swallowed
        else if |ask.questions| > 1 && !IsWordReply(m) && !IsSkip(m) then UseWebUi
        else Consumed(
          if ask.isQuestion && !IsWordReply(m) then (if IsSkip(m) then "skip" else Trim(m.text)) else m.lower)
  }

  function PendingAsk(s: State, conv: string): Option<Ask> {
    if conv in s.pending && s.pending[conv] < |s.asks| then Some(s.asks[s.pending[conv]]) else None
  }

  // --- Steps ---------------------------------------------------------------------

  predicate Ready(s: State, a: nat) {
    a in s.answers || forall conv <- s.pending :: s.pending[conv] != a
  }

  predicate Possible(s: State, e: Event) {
    match e
    case Woken(a) => a < |s.waiters| && s.waiters[a] == Waiting && Ready(s, a)
    case Expires(a) => a < |s.waiters| && s.waiters[a] == Waiting && !Ready(s, a)
    case GivesUp(a) => a < |s.asks| == |s.waiters| && s.waiters[a] == Expired
    case _ => true
  }

  function Respond(s: State, a: nat, reply: string): State
    requires a < |s.asks| == |s.waiters|
  {
    var response := ResponseFor(reply, s.asks[a].actions, s.asks[a].questions);
    s.(waiters := s.waiters[a := Done], responses := s.responses + [Sent(a, response)])
  }

  function Drop(s: State, conv: string): State {
    s.(pending := s.pending - {conv})
  }

  function Step(s: State, e: Event): State
    requires Possible(s, e) && |s.asks| == |s.waiters|
  {
    match e
    case Requested(ask) =>
      s.(asks := s.asks + [ask], pending := s.pending[ask.conv := |s.asks|], waiters := s.waiters + [Waiting])
    case Replied(m) =>
      (match Handle(PendingAsk(s, m.conv), m)
       case Consumed(answer) => Drop(s, m.conv).(answers := s.answers[s.pending[m.conv] := answer])
       case _ => s)
    case Woken(a) => Respond(s, a, if a in s.answers then s.answers[a] else "deny")
    case Expires(a) => s.(waiters := s.waiters[a := Expired])
    case GivesUp(a) => Respond(Drop(s, s.asks[a].conv), a, "deny")
    case Resolved(conv) => Drop(s, conv)
    case TurnEnded(conv) => Drop(s, conv)
  }

  ghost predicate Inv(s: State) {
    && |s.asks| == |s.waiters|
    && (forall conv <- s.pending :: PendingKept(s, conv, s.pending[conv]))
    && (forall a <- s.answers :: a < |s.asks|)
    && (forall i :: 0 <= i < |s.responses| ==> ResponseKept(s, s.responses[i]))
    && (forall i, j :: 0 <= i < j < |s.responses| ==> s.responses[i].ask != s.responses[j].ask)
    && (forall a :: 0 <= a < |s.waiters| && s.waiters[a] == Done ==> exists r :: r in s.responses && r.ask == a)
  }

  /** A pending ask is its conversation's and unanswered. */
  predicate PendingKept(s: State, conv: string, a: nat) {
    a < |s.asks| && s.asks[a].conv == conv && a !in s.answers
  }

  /** A response is denial, or what the ask's consumed answer maps to. */
  predicate ResponseKept(s: State, r: Sent) {
    && r.ask < |s.asks| == |s.waiters| && s.waiters[r.ask] == Done
    && var ask := s.asks[r.ask];
       || r.response == ResponseFor("deny", ask.actions, ask.questions)
       || (r.ask in s.answers && r.response == ResponseFor(s.answers[r.ask], ask.actions, ask.questions))
  }

  lemma InitialKept()
    ensures Inv(Initial)
  {
  }

  lemma DropKeeps(s: State, conv: string)
    requires Inv(s)
    ensures Inv(Drop(s, conv))
  {
    assert forall c <- Drop(s, conv).pending :: PendingKept(s, c, s.pending[c]);
    assert forall r: Sent :: ResponseKept(s, r) ==> ResponseKept(Drop(s, conv), r);
  }

  lemma RespondKeeps(s: State, a: nat, reply: string)
    requires Inv(s) && a < |s.asks| && s.waiters[a] != Done
    requires reply == "deny" || (a in s.answers && reply == s.answers[a])
    ensures Inv(Respond(s, a, reply))
  {
    hide ResponseFor;
    var t := Respond(s, a, reply);
    assert forall c <- t.pending :: PendingKept(s, c, s.pending[c]);
    forall i | 0 <= i < |t.responses| ensures ResponseKept(t, t.responses[i]) {
      assert i < |s.responses| ==> ResponseKept(s, s.responses[i]);
    }
    forall b | 0 <= b < |t.waiters| && t.waiters[b] == Done ensures exists r :: r in t.responses && r.ask == b {
      if b == a {
        assert t.responses[|s.responses|].ask == a;
      } else {
        var r :| r in s.responses && r.ask == b;
        assert r in t.responses;
      }
    }
  }

  lemma RequestKeeps(s: State, ask: Ask)
    requires Inv(s)
    ensures Inv(Step(s, Requested(ask)))
  {
    var t := Step(s, Requested(ask));
    forall c <- t.pending ensures PendingKept(t, c, t.pending[c]) {
      assert c != ask.conv ==> PendingKept(s, c, s.pending[c]);
    }
    forall i | 0 <= i < |t.responses| ensures ResponseKept(t, t.responses[i]) {
      assert ResponseKept(s, s.responses[i]);
    }
  }

  lemma ReplyKeeps(s: State, m: Message)
    requires Inv(s)
    ensures Inv(Step(s, Replied(m)))
  {
    hide Handle, ResponseFor;
    var t := Step(s, Replied(m));
    if Handle(PendingAsk(s, m.conv), m).Consumed? {
      HandleCases(PendingAsk(s, m.conv), m);
      var a := s.pending[m.conv];
      assert PendingKept(s, m.conv, a);
      forall c <- t.pending ensures PendingKept(t, c, t.pending[c]) {
        assert PendingKept(s, c, s.pending[c]);
      }
      forall i | 0 <= i < |t.responses| ensures ResponseKept(t, t.responses[i]) {
        assert ResponseKept(s, s.responses[i]);
      }
    }
  }

  /** Only the requester's reply is consumed, and only by a pending ask. */
  lemma HandleCases(pending: Option<Ask>, m: Message)
    ensures Handle(pending, m).Consumed? ==> pending.Some? && pending.value.requester == m.sender
  {
  }

  lemma StepKeeps(s: State, e: Event)
    requires Inv(s) && Possible(s, e)
    ensures Inv(Step(s, e))
  {
    hide Inv, Respond, Drop, Handle;
    Sizes(s);
    match e {
      case Requested(ask) => RequestKeeps(s, ask);
      case Replied(m) => ReplyKeeps(s, m);
      case Woken(a) => RespondKeeps(s, a, if a in s.answers then s.answers[a] else "deny");
      case Expires(a) => ExpireKeeps(s, a);
      case GivesUp(a) => GiveUpKeeps(s, a);
      case Resolved(conv) => DropKeeps(s, conv);
      case TurnEnded(conv) => DropKeeps(s, conv);
    }
  }

  lemma GiveUpKeeps(s: State, a: nat)
    requires Inv(s) && Possible(s, GivesUp(a))
    ensures Inv(Step(s, GivesUp(a)))
  {
    hide Inv, Respond;
    DropKeeps(s, s.asks[a].conv);
    Sizes(s);
    RespondKeeps(Drop(s, s.asks[a].conv), a, "deny");
  }

  lemma ExpireKeeps(s: State, a: nat)
    requires Inv(s) && Possible(s, Expires(a))
    ensures Inv(Step(s, Expires(a)))
  {
    var t := Step(s, Expires(a));
    assert forall c <- t.pending :: PendingKept(s, c, s.pending[c]);
    forall i | 0 <= i < |t.responses| ensures ResponseKept(t, t.responses[i]) {
      assert ResponseKept(s, s.responses[i]);
    }
  }

  // --- Whole runs ------------------------------------------------------------------

  predicate IsRun(events: seq<Event>)
    decreases |events|, 0
  {
    events == [] ||
    var last := |events| - 1;
    IsRun(events[..last]) && Possible(After(events[..last]), events[last])
  }

  function After(events: seq<Event>): (s: State)
    requires IsRun(events)
    ensures Inv(s)
    decreases |events|, 1
  {
    if events == [] then InitialKept(); Initial
    else
      var last := |events| - 1;
      StepKeeps(After(events[..last]), events[last]);
      Step(After(events[..last]), events[last])
  }

  /** Each ask has at most one response, over any run. */
  lemma OneResponse(events: seq<Event>, i: nat, j: nat)
    requires IsRun(events)
    requires i < |After(events).responses| && j < |After(events).responses|
    requires After(events).responses[i].ask == After(events).responses[j].ask
    ensures i == j
  {
    hide After, IsRun;
    var s := After(events);
    assert Inv(s);
  }

  /** The `i`th event is the requester's reply, taken while ask `a` was its conversation's pending one. */
  ghost predicate Grants(events: seq<Event>, i: nat, a: nat, answer: string) {
    && i < |events| && IsRun(events[..i]) && events[i].Replied?
    && var before, m := After(events[..i]), events[i].message;
       && a < |before.asks|
       && m.conv in before.pending && before.pending[m.conv] == a
       && before.asks[a].conv == m.conv
       && m.sender == before.asks[a].requester
       && Handle(Some(before.asks[a]), m) == Consumed(answer)
  }

  /** Every answer in a channel was put there by such a reply. */
  lemma {:induction false} AnswerWasGranted(events: seq<Event>, a: nat) returns (i: nat)
    requires IsRun(events) && a in After(events).answers
    ensures Grants(events, i, a, After(events).answers[a])
  {
    hide Handle, Inv;
    var last := |events| - 1;
    var before := After(events[..last]);
    StepAnswers(before, events[last], a);
    if a in before.answers {
      i := AnswerWasGranted(events[..last], a);
      assert events[..last][..i] == events[..i];
    } else {
      i := last;
    }
  }

  lemma StepAnswers(s: State, e: Event, a: nat)
    requires Inv(s) && Possible(s, e) && a in Step(s, e).answers
    ensures a in s.answers ==> Step(s, e).answers[a] == s.answers[a]
    ensures a !in s.answers ==>
              && e.Replied? && e.message.conv in s.pending && s.pending[e.message.conv] == a
              && a < |s.asks| && s.asks[a].conv == e.message.conv && e.message.sender == s.asks[a].requester
              && Handle(Some(s.asks[a]), e.message) == Consumed(Step(s, e).answers[a])
  {
    hide Handle, ResponseFor;
    if e.Replied? {
      var m := e.message;
      HandleCases(PendingAsk(s, m.conv), m);
      assert m.conv in s.pending ==> PendingKept(s, m.conv, s.pending[m.conv]);
    }
  }

  /** A tool is allowed only on the requester's own reply, consumed while the ask was pending. */
  lemma AllowWasGranted(events: seq<Event>, r: Sent) returns (i: nat, answer: string)
    requires IsRun(events) && r in After(events).responses && r.response.Allow?
    ensures Grants(events, i, r.ask, answer) && answer != "deny"
    ensures r.ask < |After(events).asks|
    ensures r.response == ResponseFor(answer, After(events).asks[r.ask].actions, After(events).asks[r.ask].questions)
  {
    hide After, IsRun, Grants, ResponseFor;
    var s := After(events);
    assert ResponseKept(s, r);
    DeniesIffDeny("deny", s.asks[r.ask].actions, s.asks[r.ask].questions);
    answer := s.answers[r.ask];
    DeniesIffDeny(answer, s.asks[r.ask].actions, s.asks[r.ask].questions);
    i := AnswerWasGranted(events, r.ask);
  }

  /** No waiter is ever stuck: its ask gets its response in at most two more of its own steps, and a
      waiter that is still waiting passes on the consumed answer. */
  lemma WaiterResponds(s: State, a: nat) returns (steps: seq<Event>, t: State)
    requires Inv(s) && a < |s.asks| && s.waiters[a] != Done
    ensures |steps| == 1 || |steps| == 2
    ensures forall e <- steps :: e in [Woken(a), Expires(a), GivesUp(a)]
    ensures Possible(s, steps[0])
    ensures |steps| == 1 ==> t == Step(s, steps[0])
    ensures |steps| == 2 ==> Inv(Step(s, steps[0])) && Possible(Step(s, steps[0]), steps[1])
                             && t == Step(Step(s, steps[0]), steps[1])
    ensures Inv(t) && |t.responses| == |s.responses| + 1 && t.responses[..|s.responses|] == s.responses
    ensures var r := t.responses[|s.responses|];
            && r.ask == a
            && r.response == ResponseFor(
              if s.waiters[a] == Waiting && a in s.answers then s.answers[a] else "deny",
              s.asks[a].actions, s.asks[a].questions)
  {
    hide ResponseFor, Inv;
    assert |s.asks| == |s.waiters| by { Sizes(s); }
    if s.waiters[a] == Expired {
      steps := [GivesUp(a)];
      StepKeeps(s, GivesUp(a));
      t := Step(s, GivesUp(a));
    } else if Ready(s, a) {
      steps := [Woken(a)];
      StepKeeps(s, Woken(a));
      t := Step(s, Woken(a));
    } else {
      steps := [Expires(a), GivesUp(a)];
      StepKeeps(s, Expires(a));
      StepKeeps(Step(s, Expires(a)), GivesUp(a));
      t := Step(Step(s, Expires(a)), GivesUp(a));
    }
  }

  lemma Sizes(s: State)
    requires Inv(s)
    ensures |s.asks| == |s.waiters|
  {
  }

  /** A timer removes whatever is pending for its conversation: between the timer's firing and its
      look at the map a newer ask may have come, which is then denied though nobody answered it. */
  lemma ExpiryDeniesLaterAsk(first: Ask, second: Ask)
    requires first.conv == second.conv
    ensures var events := [Requested(first), Expires(0), Requested(second), GivesUp(0), Woken(1)];
            && IsRun(events)
            && After(events).responses ==
               [Sent(0, ResponseFor("deny", first.actions, first.questions)),
                Sent(1, ResponseFor("deny", second.actions, second.questions))]
            && After(events).answers == map[]
  {
    hide ResponseFor, Inv, After, IsRun;
    EmptyRun();
    AfterOneMore([], Requested(first));
    var one := [] + [Requested(first)];
    assert first.conv in After(one).pending && After(one).pending[first.conv] == 0;
    AfterOneMore(one, Expires(0));
    var two := one + [Expires(0)];
    AfterOneMore(two, Requested(second));
    var three := two + [Requested(second)];
    AfterOneMore(three, GivesUp(0));
    var four := three + [GivesUp(0)];
    AfterOneMore(four, Woken(1));
    assert four + [Woken(1)] == [Requested(first), Expires(0), Requested(second), GivesUp(0), Woken(1)];
  }

  lemma EmptyRun()
    ensures IsRun([]) && After([]) == Initial
  {
  }

  lemma AfterOneMore(events: seq<Event>, e: Event)
    requires IsRun(events) && Possible(After(events), e)
    ensures IsRun(events + [e]) && After(events + [e]) == Step(After(events), e)
  {
    assert (events + [e])[..|events|] == events;
  }

  // --- Whose timer removes an ask -----------------------------------------------------

  /** Ask `b` is its conversation's pending one. */
  predicate IsPending(s: State, b: nat) {
    b < |s.asks| && s.asks[b].conv in s.pending && s.pending[s.asks[b].conv] == b
  }

  /** Some waiter of the conversation has timed out and not looked at the map yet. */
  ghost predicate TimedOut(s: State, conv: string) {
    exists a :: 0 <= a < |s.asks| == |s.waiters| && s.asks[a].conv == conv && s.waiters[a] == Expired
  }

  /** `e` is another ask's timeout that removes the pending ask `b`. */
  predicate Steals(s: State, e: Event, b: nat) {
    && IsPending(s, b) && Possible(s, e)
    && e.GivesUp? && e.number != b && s.asks[e.number].conv == s.asks[b].conv
  }

  /** While `b` is pending, no other waiter of its conversation is on its way to the map. */
  ghost predicate Alone(s: State, b: nat) {
    && b < |s.asks| == |s.waiters|
    && (IsPending(s, b) ==>
          forall a :: 0 <= a < |s.asks| && a != b && s.asks[a].conv == s.asks[b].conv ==> s.waiters[a] != Expired)
  }

  lemma StepKeepsAlone(s: State, e: Event, b: nat)
    requires Inv(s) && Possible(s, e) && Alone(s, b)
    ensures Alone(Step(s, e), b)
  {
    hide ResponseFor, Handle, ResponseKept;
    assert forall c <- s.pending :: PendingKept(s, c, s.pending[c]);
  }

  /** `more` happens after `ask` was requested at the end of `events`. */
  function Since(events: seq<Event>, ask: Ask, more: seq<Event>): seq<Event> {
    events + [Requested(ask)] + more
  }

  lemma SinceSnoc(events: seq<Event>, ask: Ask, more: seq<Event>)
    requires more != []
    ensures var run := Since(events, ask, more);
            && run != [] && run[|run| - 1] == more[|more| - 1]
            && run[..|run| - 1] == Since(events, ask, more[..|more| - 1])
  {
  }

  lemma {:induction false} SinceKeepsAlone(events: seq<Event>, ask: Ask, more: seq<Event>)
    requires IsRun(events) && !TimedOut(After(events), ask.conv)
    requires IsRun(Since(events, ask, more))
    ensures Alone(After(Since(events, ask, more)), |After(events).asks|)
    ensures var b, s := |After(events).asks|, After(Since(events, ask, more)); b < |s.asks| && s.asks[b] == ask
  {
    hide Inv, Step, Alone, Since, TimedOut, After, IsRun;
    var b := |After(events).asks|;
    if more == [] {
      assert Since(events, ask, more) == events + [Requested(ask)] by { SinceNothing(events, ask); }
      AfterOneMore(events, Requested(ask));
      RequestedAlone(After(events), ask);
    } else {
      SinceSnoc(events, ask, more);
      LastStep(Since(events, ask, more));
      var before := Since(events, ask, more[..|more| - 1]);
      SinceKeepsAlone(events, ask, more[..|more| - 1]);
      StepKeepsAlone(After(before), more[|more| - 1], b);
      AsksStay(After(before), more[|more| - 1]);
    }
  }

  lemma LastStep(run: seq<Event>)
    requires run != [] && IsRun(run)
    ensures var last := |run| - 1;
            && IsRun(run[..last]) && Possible(After(run[..last]), run[last])
            && After(run) == Step(After(run[..last]), run[last])
  {
  }

  lemma SinceNothing(events: seq<Event>, ask: Ask)
    ensures Since(events, ask, []) == events + [Requested(ask)]
  {
  }

  lemma RequestedAlone(s: State, ask: Ask)
    requires Inv(s) && !TimedOut(s, ask.conv)
    ensures var t := Step(s, Requested(ask)); Alone(t, |s.asks|) && |t.asks| > |s.asks| && t.asks[|s.asks|] == ask
  {
    assert |s.asks| == |s.waiters|;
  }

  lemma AsksStay(s: State, e: Event)
    requires Inv(s) && Possible(s, e)
    ensures s.asks <= Step(s, e).asks
  {
    hide ResponseFor, Handle;
  }

  /** An ask can be removed by another ask's timer if and only if, at the moment of its request, some
      waiter of its conversation has already timed out. */
  lemma StolenIff(events: seq<Event>, ask: Ask)
    requires IsRun(events)
    ensures var b := |After(events).asks|;
            (exists more, e :: IsRun(Since(events, ask, more)) && Steals(After(Since(events, ask, more)), e, b)) <==>
            TimedOut(After(events), ask.conv)
  {
    hide Inv, After, IsRun, Since;
    var b := |After(events).asks|;
    if TimedOut(After(events), ask.conv) {
      var e := TimedOutSteals(After(events), ask);
      SinceNothing(events, ask);
      AfterOneMore(events, Requested(ask));
      assert Steals(After(Since(events, ask, [])), e, b);
    }
    if more, e :| IsRun(Since(events, ask, more)) && Steals(After(Since(events, ask, more)), e, b) {
      if !TimedOut(After(events), ask.conv) {
        SinceKeepsAlone(events, ask, more);
        assert false;
      }
    }
  }

  lemma TimedOutSteals(s: State, ask: Ask) returns (e: Event)
    requires Inv(s) && TimedOut(s, ask.conv)
    ensures Steals(Step(s, Requested(ask)), e, |s.asks|)
  {
    var a :| 0 <= a < |s.asks| == |s.waiters| && s.asks[a].conv == ask.conv && s.waiters[a] == Expired;
    e := GivesUp(a);
  }

  /** Otherwise an ask leaves the map for its own causes only: the reply that is consumed for it, its
      own timer, a newer ask, or the end of the matter or of the turn. */
  lemma RemovedByOwnCause(events: seq<Event>, ask: Ask, more: seq<Event>, e: Event)
    requires IsRun(events) && !TimedOut(After(events), ask.conv)
    requires IsRun(Since(events, ask, more)) && Possible(After(Since(events, ask, more)), e)
    requires var b := |After(events).asks|;
             IsPending(After(Since(events, ask, more)), b) && !IsPending(Step(After(Since(events, ask, more)), e), b)
    ensures var b, t := |After(events).asks|, Step(After(Since(events, ask, more)), e);
            || (e.Replied? && b in t.answers)
            || e == GivesUp(b)
            || (e.Requested? && e.ask.conv == ask.conv)
            || e == Resolved(ask.conv) || e == TurnEnded(ask.conv)
  {
    hide After, IsRun, Since, TimedOut, ResponseFor, Handle;
    SinceKeepsAlone(events, ask, more);
    AsksStay(After(Since(events, ask, more)), e);
  }

  // --- The bridge's lane map -----------------------------------------------------------

  /** The lane as the bridge stores it; `number` stands for the sending end of its channel. */
  datatype AskLane = AskLane(number: nat, ask: Ask)

  ghost function Lanes(asks: seq<Ask>, pending: map<string, nat>): map<string, AskLane> {
    map conv | conv in pending && pending[conv] < |asks| :: AskLane(pending[conv], asks[pending[conv]])
  }

  lemma LanesAfterRequest(s: State, ask: Ask)
    requires Inv(s)
    ensures Lanes(s.asks + [ask], s.pending[ask.conv := |s.asks|])
            == Lanes(s.asks, s.pending)[ask.conv := AskLane(|s.asks|, ask)]
  {
    assert forall c <- s.pending :: PendingKept(s, c, s.pending[c]);
  }

  lemma LanesAfterDrop(s: State, conv: string)
    requires Inv(s)
    ensures Lanes(s.asks, s.pending - {conv}) == Lanes(s.asks, s.pending) - {conv}
    ensures conv in s.pending ==>
              && conv in Lanes(s.asks, s.pending)
              && PendingAsk(s, conv) == Some(Lanes(s.asks, s.pending)[conv].ask)
    ensures conv !in s.pending ==> conv !in Lanes(s.asks, s.pending) && PendingAsk(s, conv) == None
    ensures |s.asks| == |s.waiters|
  {
    assert conv in s.pending ==> PendingKept(s, conv, s.pending[conv]);
  }

  class AskLanes {
    var pending: map<string, AskLane>
    ghost var state: State

    ghost predicate Valid()
      reads this
    {
      Inv(state) && pending == Lanes(state.asks, state.pending)
    }

    constructor ()
      ensures Valid() && state == Initial
    {
      pending := map[];
      state := Initial;
    }

    method Request(ask: Ask, number: nat)
      requires Valid() && number == |state.asks|
      modifies this
      ensures Valid() && state == Step(old(state), Requested(ask))
    {
      hide Inv, Lanes;
      Sizes(state);
      LanesAfterRequest(state, ask);
      pending := pending[ask.conv := AskLane(number, ask)];
      StepKeeps(state, Requested(ask));
      state := Step(state, Requested(ask));
    }

    /** Authorization and removal happen under one lock. */
    method Reply(m: Message) returns (handling: Handling)
      requires Valid()
      modifies this
      ensures Valid() && state == Step(old(state), Replied(m))
      ensures handling == Handle(PendingAsk(old(state), m.conv), m)
    {
      hide Inv, Lanes;
      LanesAfterDrop(state, m.conv);
      StepKeeps(state, Replied(m));
      ghost var next := Step(state, Replied(m));
      if !LooksLikeReply(m) {
        handling := NotAReply;
      } else if m.conv !in pending {
        handling := NoAsk;
      } else {
        var ask := pending[m.conv].ask;
        if ask.requester != m.sender {
          handling := Swallowed;
        } else if |ask.questions| > 1 && !IsWordReply(m) && !IsSkip(m) {
          handling := UseWebUi;
        } else {
          pending := pending - {m.conv};
          var answer := m.lower;
          if ask.isQuestion && !IsWordReply(m) {
            answer := if IsSkip(m) then "skip" else Trim(m.text);
          }
          handling := Consumed(answer);
        }
      }
      state := next;
    }

    /** The timed-out waiter's look at the map: it removes whatever lane is there. */
    method GiveUp(number: nat, conv: string) returns (reply: string)
      requires Valid() && Possible(state, GivesUp(number)) && state.asks[number].conv == conv
      modifies this
      ensures Valid() && state == Step(old(state), GivesUp(number)) && reply == "deny"
    {
      hide Inv, Lanes, ResponseFor;
      LanesAfterDrop(state, conv);
      StepKeeps(state, GivesUp(number));
      pending := pending - {conv};
      reply := "deny";
      state := Step(state, GivesUp(number));
    }

    method Resolve(conv: string)
      requires Valid()
      modifies this
      ensures Valid() && state == Step(old(state), Resolved(conv)) == Step(old(state), TurnEnded(conv))
    {
      hide Inv, Lanes;
      LanesAfterDrop(state, conv);
      StepKeeps(state, Resolved(conv));
      pending := pending - {conv};
      state := Step(state, Resolved(conv));
    }
  }
}
