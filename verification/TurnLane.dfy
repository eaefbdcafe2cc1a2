/** The per-conversation turn lane of the chat bridge (src/channel.rs:733-876, 917-931): one live
    turn per conversation, a bounded queue behind it, and the hand-off when the turn ends. */
module TurnLane {
  import opened Text

  const MAX_QUEUED_PROMPTS: nat := 3

  /** `arrival` numbers the prompts in the order in which the bridge receives them. */
  datatype Prompt = Prompt(conv: string, text: string, arrival: nat)

  datatype Lane = Lane(live: bool, queue: seq<Prompt>)

  /** The lane map, the turns whose guard has not run yet, and what happened to each prompt. */
  datatype State = State(
    turns: map<string, Lane>,
    running: seq<Prompt>,
    arrivals: nat,
    accepted: seq<Prompt>,
    started: seq<Prompt>,
    dropped: seq<Prompt>)

  const Initial := State(map[], [], 0, [], [], [])

  datatype Reply = Start | Queued(position: nat) | Full

  // --- The three operations on the lane map ------------------------------------

  function LaneOf(turns: map<string, Lane>, conv: string): Lane {
    if conv in turns then turns[conv] else Lane(false, [])
  }

  function Decide(lane: Lane): Reply {
    if !lane.live then Start
    else if |lane.queue| < MAX_QUEUED_PROMPTS then Queued(|lane.queue| + 1)
    else Full
  }

  function StartTurn(s: State, p: Prompt): State {
    s.(running := s.running + [p], started := s.started + [p])
  }

  function Arrive(s: State, conv: string, text: string): State {
    var p := Prompt(conv, text, s.arrivals);
    var lane := LaneOf(s.turns, conv);
    var seen := s.(arrivals := s.arrivals + 1);
    match Decide(lane)
    case Start =>
      StartTurn(seen.(turns := s.turns[conv := Lane(true, lane.queue)], accepted := s.accepted + [p]), p)
    case Queued(_) =>
      seen.(turns := s.turns[conv := Lane(true, lane.queue + [p])], accepted := s.accepted + [p])
    case Full => seen
  }

  /** The guard of the `i`th running turn fires. */
  function Finish(s: State, i: nat): State
    requires i < |s.running|
  {
    var conv := s.running[i].conv;
    var queue := LaneOf(s.turns, conv).queue;
    var ended := s.(running := s.running[..i] + s.running[i + 1..]);
    if queue == [] then ended.(turns := s.turns - {conv})
    else StartTurn(ended.(turns := s.turns[conv := Lane(true, queue[1..])]), queue[0])
  }

  function Cancel(s: State, conv: string): State {
    if conv in s.turns then
      s.(turns := s.turns[conv := s.turns[conv].(queue := [])], dropped := s.dropped + s.turns[conv].queue)
    else s
  }

  // --- Runs ----------------------------------------------------------------------

  datatype Event = Message(conv: string, text: string) | TurnEnds(turn: nat) | CancelCommand(conv: string)

  /** A guard fires once per turn, and only for a turn that was started. */
  predicate Possible(s: State, e: Event) {
    e.TurnEnds? ==> e.turn < |s.running|
  }

  function Step(s: State, e: Event): State
    requires Possible(s, e)
  {
    match e
    case Message(conv, text) => Arrive(s, conv, text)
    case TurnEnds(i) => Finish(s, i)
    case CancelCommand(conv) => Cancel(s, conv)
  }

  function After(s: State, events: seq<Event>): State
    requires IsRun(s, events)
    decreases |events|
  {
    if events == [] then s else After(Step(s, events[0]), events[1..])
  }

  predicate IsRun(s: State, events: seq<Event>)
    decreases |events|
  {
    events == [] || (Possible(s, events[0]) && IsRun(Step(s, events[0]), events[1..]))
  }

  // --- What every reachable state keeps --------------------------------------------

  /** The prompts of one conversation, in order. */
  function Of(ps: seq<Prompt>, conv: string): seq<Prompt> {
    if ps == [] then []
    else (if ps[0].conv == conv then [ps[0]] else []) + Of(ps[1..], conv)
  }

  function Waiting(s: State, conv: string): seq<Prompt> {
    LaneOf(s.turns, conv).queue
  }

  /** Strictly later arrivals further on. */
  predicate InArrivalOrder(ps: seq<Prompt>) {
    forall i, j :: 0 <= i < j < |ps| ==> ps[i].arrival < ps[j].arrival
  }

  predicate LaneKept(conv: string, lane: Lane) {
    lane.live && |lane.queue| <= MAX_QUEUED_PROMPTS && forall p <- lane.queue :: p.conv == conv
  }

  /** One live turn where there is a lane, none elsewhere. */
  predicate OneTurn(s: State, conv: string) {
    |Of(s.running, conv)| == if conv in s.turns then 1 else 0
  }

  /** Each accepted prompt is started, waiting or dropped, and started ones keep their order. */
  ghost predicate Account(accepted: seq<Prompt>, started: seq<Prompt>, waiting: seq<Prompt>, dropped: seq<Prompt>,
                          arrivals: nat) {
    && multiset(accepted) == multiset(started) + multiset(waiting) + multiset(dropped)
    && InArrivalOrder(started + waiting)
    && Before(started + waiting, arrivals)
    && InArrivalOrder(accepted)
    && Before(accepted, arrivals)
  }

  predicate Before(ps: seq<Prompt>, arrivals: nat) {
    forall p <- ps :: p.arrival < arrivals
  }

  ghost predicate Accounted(s: State, conv: string) {
    Account(Of(s.accepted, conv), Of(s.started, conv), Waiting(s, conv), Of(s.dropped, conv), s.arrivals)
  }

  ghost predicate LanesKept(s: State) {
    forall conv <- s.turns :: LaneKept(conv, s.turns[conv])
  }

  ghost predicate Inv(s: State) {
    LanesKept(s) && forall conv: string :: Accounted(s, conv) && OneTurn(s, conv)
  }

  lemma {:induction false} OfConcat(a: seq<Prompt>, b: seq<Prompt>, conv: string)
    ensures Of(a + b, conv) == Of(a, conv) + Of(b, conv)
  {
    if a == [] {
      assert a + b == b;
    } else {
      var head := if a[0].conv == conv then [a[0]] else [];
      assert (a + b)[0] == a[0] && (a + b)[1..] == a[1..] + b;
      OfConcat(a[1..], b, conv);
      assert Of(a + b, conv) == head + (Of(a[1..], conv) + Of(b, conv));
      assert Of(a, conv) == head + Of(a[1..], conv);
    }
  }

  lemma {:induction false} OfOwn(ps: seq<Prompt>, owner: string, conv: string)
    requires forall p <- ps :: p.conv == owner
    ensures Of(ps, conv) == if conv == owner then ps else []
  {
    if ps != [] {
      OfOwn(ps[1..], owner, conv);
    }
  }

  lemma Append(ps: seq<Prompt>, p: Prompt, arrivals: nat)
    requires InArrivalOrder(ps) && Before(ps, arrivals) && p.arrival == arrivals
    ensures InArrivalOrder(ps + [p]) && Before(ps + [p], arrivals + 1)
  {
  }

  lemma Accepts(accepted: seq<Prompt>, started: seq<Prompt>, waiting: seq<Prompt>, dropped: seq<Prompt>,
                arrivals: nat, p: Prompt)
    requires Account(accepted, started, waiting, dropped, arrivals) && p.arrival == arrivals
    ensures Account(accepted + [p], started, waiting + [p], dropped, arrivals + 1)
    ensures waiting == [] ==> Account(accepted + [p], started + [p], waiting, dropped, arrivals + 1)
  {
    hide InArrivalOrder, Before;
    Append(accepted, p, arrivals);
    Append(started + waiting, p, arrivals);
    assert started + (waiting + [p]) == (started + waiting) + [p];
    assert waiting == [] ==> (started + [p]) + waiting == (started + waiting) + [p];
  }

  lemma AccountLater(accepted: seq<Prompt>, started: seq<Prompt>, waiting: seq<Prompt>, dropped: seq<Prompt>,
                     arrivals: nat)
    requires Account(accepted, started, waiting, dropped, arrivals)
    ensures Account(accepted, started, waiting, dropped, arrivals + 1)
  {
  }

  lemma Promotes(accepted: seq<Prompt>, started: seq<Prompt>, waiting: seq<Prompt>, dropped: seq<Prompt>, arrivals: nat)
    requires Account(accepted, started, waiting, dropped, arrivals) && waiting != []
    ensures Account(accepted, started + [waiting[0]], waiting[1..], dropped, arrivals)
  {
    hide InArrivalOrder, Before;
    assert waiting == [waiting[0]] + waiting[1..];
    assert (started + [waiting[0]]) + waiting[1..] == started + waiting;
  }

  lemma Drops(accepted: seq<Prompt>, started: seq<Prompt>, waiting: seq<Prompt>, dropped: seq<Prompt>, arrivals: nat)
    requires Account(accepted, started, waiting, dropped, arrivals)
    ensures Account(accepted, started, [], dropped + waiting, arrivals)
  {
    assert started == (started + waiting)[..|started|];
    assert started + [] == started;
  }

  lemma AddNothing(ps: seq<Prompt>, c: string)
    ensures Of(ps, c) + [] == Of(ps, c) == [] + Of(ps, c)
  {
  }

  lemma ArriveKeeps(s: State, conv: string, text: string, c: string)
    requires LanesKept(s) && Accounted(s, c) && OneTurn(s, c)
    ensures var t := Arrive(s, conv, text); Accounted(t, c) && OneTurn(t, c)
  {
    hide Account, Of;
    var p := Prompt(conv, text, s.arrivals);
    OfConcat(s.accepted, [p], c);
    OfConcat(s.started, [p], c);
    OfConcat(s.running, [p], c);
    OfOwn([p], conv, c);
    AddNothing(s.accepted, c);
    AddNothing(s.started, c);
    AddNothing(s.running, c);
    AccountLater(Of(s.accepted, c), Of(s.started, c), Waiting(s, c), Of(s.dropped, c), s.arrivals);
    Accepts(Of(s.accepted, c), Of(s.started, c), Waiting(s, c), Of(s.dropped, c), s.arrivals, p);
  }

  lemma RemoveOne(ps: seq<Prompt>, i: nat, c: string)
    requires i < |ps|
    ensures |Of(ps[..i] + ps[i + 1..], c)| == |Of(ps, c)| - if ps[i].conv == c then 1 else 0
  {
    assert ps == ps[..i] + ([ps[i]] + ps[i + 1..]);
    OfConcat(ps[..i], [ps[i]] + ps[i + 1..], c);
    OfConcat([ps[i]], ps[i + 1..], c);
    OfConcat(ps[..i], ps[i + 1..], c);
    OfOwn([ps[i]], ps[i].conv, c);
  }

  lemma FinishKeeps(s: State, i: nat, c: string)
    requires LanesKept(s) && Accounted(s, c) && OneTurn(s, c) && i < |s.running|
    ensures var t := Finish(s, i); Accounted(t, c) && OneTurn(t, c)
  {
    hide Account, Of;
    var conv := s.running[i].conv;
    var q := Waiting(s, conv);
    RemoveOne(s.running, i, c);
    AddNothing(s.started, c);
    if q != [] {
      assert q[0].conv == conv;
      OfConcat(s.started, [q[0]], c);
      OfConcat(s.running[..i] + s.running[i + 1..], [q[0]], c);
      OfOwn([q[0]], conv, c);
      if c == conv {
        Promotes(Of(s.accepted, c), Of(s.started, c), q, Of(s.dropped, c), s.arrivals);
      }
    }
  }

  lemma CancelKeeps(s: State, conv: string, c: string)
    requires LanesKept(s) && Accounted(s, c) && OneTurn(s, c)
    ensures var t := Cancel(s, conv); Accounted(t, c) && OneTurn(t, c)
  {
    hide Account, Of;
    var q := Waiting(s, conv);
    AddNothing(s.dropped, c);
    OfConcat(s.dropped, q, c);
    OfOwn(q, conv, c);
    if c == conv {
      Drops(Of(s.accepted, c), Of(s.started, c), q, Of(s.dropped, c), s.arrivals);
    }
  }

  lemma StepKeepsLanes(s: State, e: Event)
    requires LanesKept(s) && Possible(s, e)
    ensures LanesKept(Step(s, e))
  {
  }

  lemma StepKeeps(s: State, e: Event)
    requires Inv(s) && Possible(s, e)
    ensures Inv(Step(s, e))
  {
    hide Accounted, Arrive, Finish, Cancel, LanesKept, OneTurn;
    StepKeepsLanes(s, e);
    forall c: string ensures Accounted(Step(s, e), c) && OneTurn(Step(s, e), c) {
      match e {
        case Message(conv, text) => ArriveKeeps(s, conv, text, c);
        case TurnEnds(i) => FinishKeeps(s, i, c);
        case CancelCommand(conv) => CancelKeeps(s, conv, c);
      }
    }
  }

  /** Safety over whole runs, in one invariant. */
  lemma {:induction false} RunKeeps(s: State, events: seq<Event>)
    requires Inv(s) && IsRun(s, events)
    ensures Inv(After(s, events))
    decreases |events|
  {
    if events != [] {
      StepKeeps(s, events[0]);
      RunKeeps(Step(s, events[0]), events[1..]);
    }
  }

  lemma InitialKept()
    ensures Inv(Initial)
  {
  }

  // --- What it means for a conversation ----------------------------------------------

  /** At most one live turn, at most three prompts waiting, and those only behind a live turn. */
  lemma ReachableLane(events: seq<Event>, conv: string)
    requires IsRun(Initial, events)
    ensures var s := After(Initial, events);
            && |Of(s.running, conv)| <= 1
            && |Waiting(s, conv)| <= MAX_QUEUED_PROMPTS
            && (Waiting(s, conv) != [] ==> |Of(s.running, conv)| == 1)
            && (Decide(LaneOf(s.turns, conv)) == Start <==> Of(s.running, conv) == [])
            && (Decide(LaneOf(s.turns, conv)) == Full <==> |Waiting(s, conv)| == MAX_QUEUED_PROMPTS)
  {
    hide After;
    InitialKept();
    RunKeeps(Initial, events);
    var s := After(Initial, events);
    assert OneTurn(s, conv);
  }

  /** Prompts start in the order of their arrival, ahead of all that still wait. */
  lemma ReachableOrder(events: seq<Event>, conv: string)
    requires IsRun(Initial, events)
    ensures var s := After(Initial, events); InArrivalOrder(Of(s.started, conv) + Waiting(s, conv))
  {
    InitialKept();
    RunKeeps(Initial, events);
    assert Accounted(After(Initial, events), conv);
  }

  lemma {:induction false} OrderedOnce(ps: seq<Prompt>, p: Prompt)
    requires InArrivalOrder(ps)
    ensures multiset(ps)[p] == if p in ps then 1 else 0
  {
    if ps != [] {
      assert ps == [ps[0]] + ps[1..];
      assert forall q <- ps[1..] :: ps[0].arrival < q.arrival;
      OrderedOnce(ps[1..], p);
    }
  }

  /** An accepted prompt is exactly one of started, waiting and dropped, and is so once. */
  lemma ReachableOnce(events: seq<Event>, p: Prompt)
    requires IsRun(Initial, events)
    ensures var s := After(Initial, events);
            multiset(Of(s.started, p.conv))[p] + multiset(Waiting(s, p.conv))[p] + multiset(Of(s.dropped, p.conv))[p]
            == if p in Of(s.accepted, p.conv) then 1 else 0
  {
    InitialKept();
    RunKeeps(Initial, events);
    var s := After(Initial, events);
    assert Accounted(s, p.conv);
    OrderedOnce(Of(s.accepted, p.conv), p);
  }

  /** The hand-off loses nothing: as the conversation's turns end one after the other, everything
      that waited is started, in order, and the lane is gone. */
  lemma {:induction false} TurnsDrain(s: State, conv: string) returns (ends: seq<Event>)
    requires Inv(s) && conv in s.turns
    ensures |ends| == |Waiting(s, conv)| + 1 && IsRun(s, ends)
    ensures var t := After(s, ends);
            && conv !in t.turns && Of(t.running, conv) == []
            && Of(t.started, conv) == Of(s.started, conv) + Waiting(s, conv)
            && t.dropped == s.dropped
    decreases |Waiting(s, conv)|
  {
    hide Accounted, Of;
    assert OneTurn(s, conv);
    var i := FindRunning(s.running, conv);
    var t := Step(s, TurnEnds(i));
    StepKeeps(s, TurnEnds(i));
    var q := Waiting(s, conv);
    if q == [] {
      ends := [TurnEnds(i)];
      assert OneTurn(t, conv);
      AddNothing(s.started, conv);
    } else {
      var rest := TurnsDrain(t, conv);
      ends := [TurnEnds(i)] + rest;
      assert ends[1..] == rest;
      OfConcat(s.started, [q[0]], conv);
      assert q[0].conv == conv;
      OfOwn([q[0]], conv, conv);
      assert q == [q[0]] + q[1..];
      assert Of(s.started, conv) + q == (Of(s.started, conv) + [q[0]]) + q[1..];
    }
  }

  lemma {:induction false} FindRunning(ps: seq<Prompt>, conv: string) returns (i: nat)
    requires Of(ps, conv) != []
    ensures i < |ps| && ps[i].conv == conv
  {
    if ps[0].conv == conv {
      i := 0;
    } else {
      i := FindRunning(ps[1..], conv);
      i := i + 1;
    }
  }

  // --- The bridge's lane map -----------------------------------------------------------

  class TurnLanes {
    var turns: map<string, Lane>
    ghost var state: State

    ghost predicate Valid()
      reads this
    {
      turns == state.turns
    }

    constructor ()
      ensures Valid() && state == Initial
    {
      turns := map[];
      state := Initial;
    }

    /** Starts the prompt, queues it, or refuses it. */
    method Accept(prompt: Prompt) returns (reply: Reply)
      requires Valid() && prompt.arrival == state.arrivals
      modifies this
      ensures Valid() && state == Step(old(state), Message(prompt.conv, prompt.text))
      ensures reply == Decide(LaneOf(old(turns), prompt.conv))
    {
      if prompt.conv !in turns {
        turns := turns[prompt.conv := Lane(false, [])];
      }
      var lane := turns[prompt.conv];
      if !lane.live {
        turns := turns[prompt.conv := lane.(live := true)];
        reply := Start;
      } else if |lane.queue| < MAX_QUEUED_PROMPTS {
        turns := turns[prompt.conv := lane.(queue := lane.queue + [prompt])];
        reply := Queued(|turns[prompt.conv].queue|);
      } else {
        reply := Full;
      }
      state := Arrive(state, prompt.conv, prompt.text);
    }

    /** Pops the next prompt and keeps the lane live for it, or drops the lane. */
    method TurnFinished(conv: string, ghost turn: nat) returns (next: Option<Prompt>)
      requires Valid() && turn < |state.running| && state.running[turn].conv == conv
      modifies this
      ensures Valid() && state == Step(old(state), TurnEnds(turn))
      ensures next.None? ==> state.started == old(state).started
      ensures next.Some? ==> state.started == old(state).started + [next.value]
    {
      next := None;
      if conv in turns && turns[conv].queue != [] {
        var lane := turns[conv];
        next := Some(lane.queue[0]);
        turns := turns[conv := Lane(true, lane.queue[1..])];
      } else {
        turns := turns - {conv};
      }
      state := Finish(state, turn);
    }

    /** Takes the queue; the live flag stays with the running turn. */
    method DropQueue(conv: string) returns (cleared: nat)
      requires Valid()
      modifies this
      ensures Valid() && state == Step(old(state), CancelCommand(conv))
      ensures cleared == |state.dropped| - |old(state).dropped|
    {
      cleared := 0;
      if conv in turns {
        cleared := |turns[conv].queue|;
        turns := turns[conv := turns[conv].(queue := [])];
      }
      state := Cancel(state, conv);
    }
  }
}
