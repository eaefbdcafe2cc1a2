/** What a message, an ended turn or a cancel does to a conversation, and what a reply does to a pending
    ask and to its response, each told without the functions that decide it
    (src/channel.rs:733-876, 917-931, 1834-1959, 2385-2388, 2416-2489). */
module ChatMeaning {
  import opened Text
  import opened Responses
  import TurnLane
  import Permissions

  // --- Turn lanes -------------------------------------------------------------------

  ghost function Running(s: TurnLane.State, conv: string): seq<TurnLane.Prompt> {
    TurnLane.Of(s.running, conv)
  }

  /** Nothing happened to any other conversation. */
  ghost predicate OnlyAt(s: TurnLane.State, t: TurnLane.State, conv: string) {
    forall c: string :: c != conv ==>
      && TurnLane.Waiting(t, c) == TurnLane.Waiting(s, c) && Running(t, c) == Running(s, c)
      && TurnLane.Of(t.started, c) == TurnLane.Of(s.started, c)
  }

  /** A message starts a turn where none runs, waits behind a running one as long as fewer than three do,
      and is otherwise refused. */
  lemma MessageMeans(events: seq<TurnLane.Event>, conv: string, text: string)
    requires TurnLane.IsRun(TurnLane.Initial, events)
    ensures var s := TurnLane.After(TurnLane.Initial, events);
            var t := TurnLane.Step(s, TurnLane.Message(conv, text));
            var p, waiting := TurnLane.Prompt(conv, text, s.arrivals), TurnLane.Waiting(s, conv);
            var reply := TurnLane.Decide(TurnLane.LaneOf(s.turns, conv));
            && OnlyAt(s, t, conv) && t.dropped == s.dropped && t.arrivals == s.arrivals + 1
            && if Running(s, conv) == [] then
                 && reply == TurnLane.Start
                 && t.running == s.running + [p] && t.started == s.started + [p] && t.accepted == s.accepted + [p]
                 && TurnLane.Waiting(t, conv) == waiting == []
               else if |waiting| < 3 then
                 && reply == TurnLane.Queued(|waiting| + 1)
                 && t.running == s.running && t.started == s.started && t.accepted == s.accepted + [p]
                 && TurnLane.Waiting(t, conv) == waiting + [p]
               else
                 && reply == TurnLane.Full
                 && t == s.(arrivals := s.arrivals + 1)
  {
    hide TurnLane.After, TurnLane.Of;
    TurnLane.InitialKept();
    TurnLane.RunKeeps(TurnLane.Initial, events);
    var s := TurnLane.After(TurnLane.Initial, events);
    TurnLane.ReachableLane(events, conv);
    assert TurnLane.OneTurn(s, conv);
    assert conv in s.turns ==> TurnLane.LaneKept(conv, s.turns[conv]);
    var p := TurnLane.Prompt(conv, text, s.arrivals);
    forall c: string | c != conv
      ensures TurnLane.Of(s.running + [p], c) == TurnLane.Of(s.running, c)
      ensures TurnLane.Of(s.started + [p], c) == TurnLane.Of(s.started, c)
    {
      Added(s.running, p, c);
      Added(s.started, p, c);
    }
  }

  lemma Added(ps: seq<TurnLane.Prompt>, p: TurnLane.Prompt, c: string)
    ensures TurnLane.Of(ps + [p], c) == TurnLane.Of(ps, c) + if p.conv == c then [p] else []
  {
    TurnLane.OfConcat(ps, [p], c);
    TurnLane.OfOwn([p], p.conv, c);
  }

  /** A turn's end starts the prompt that has waited longest, if any waits. */
  lemma TurnEndMeans(events: seq<TurnLane.Event>, i: nat)
    requires TurnLane.IsRun(TurnLane.Initial, events)
    requires i < |TurnLane.After(TurnLane.Initial, events).running|
    ensures var s := TurnLane.After(TurnLane.Initial, events);
            var t, conv := TurnLane.Step(s, TurnLane.TurnEnds(i)), s.running[i].conv;
            var waiting := TurnLane.Waiting(s, conv);
            && OnlyAt(s, t, conv) && t.accepted == s.accepted && t.dropped == s.dropped && t.arrivals == s.arrivals
            && Running(s, conv) == [s.running[i]]
            && if waiting == [] then
                 t.started == s.started && TurnLane.Waiting(t, conv) == [] && Running(t, conv) == []
               else
                 && t.started == s.started + [waiting[0]] && TurnLane.Waiting(t, conv) == waiting[1..]
                 && Running(t, conv) == [waiting[0]]
  {
    hide TurnLane.After, TurnLane.Of, TurnLane.Accounted, TurnLane.IsRun;
    TurnLane.InitialKept();
    TurnLane.RunKeeps(TurnLane.Initial, events);
    var s := TurnLane.After(TurnLane.Initial, events);
    var conv := s.running[i].conv;
    var waiting := TurnLane.Waiting(s, conv);
    var left := s.running[..i] + s.running[i + 1..];
    TurnLane.RemoveOne(s.running, i, conv);
    OnlyOne(s.running, i);
    assert TurnLane.OneTurn(s, conv);
    assert conv in s.turns ==> TurnLane.LaneKept(conv, s.turns[conv]);
    forall c: string ensures TurnLane.Of(left, c) == if c == conv then [] else TurnLane.Of(s.running, c) {
      Removed(s.running, i, c);
    }
    if waiting != [] {
      Added(left, waiting[0], conv);
      forall c: string | c != conv
        ensures TurnLane.Of(left + [waiting[0]], c) == TurnLane.Of(left, c)
        ensures TurnLane.Of(s.started + [waiting[0]], c) == TurnLane.Of(s.started, c)
      {
        Added(left, waiting[0], c);
        Added(s.started, waiting[0], c);
      }
    }
  }

  lemma {:induction false} OnlyOne(ps: seq<TurnLane.Prompt>, i: nat)
    requires i < |ps|
    ensures ps[i] in TurnLane.Of(ps, ps[i].conv)
  {
    if i > 0 {
      OnlyOne(ps[1..], i - 1);
    }
  }

  lemma Removed(ps: seq<TurnLane.Prompt>, i: nat, c: string)
    requires i < |ps|
    ensures c != ps[i].conv ==> TurnLane.Of(ps[..i] + ps[i + 1..], c) == TurnLane.Of(ps, c)
    ensures |TurnLane.Of(ps, ps[i].conv)| == 1 ==> TurnLane.Of(ps[..i] + ps[i + 1..], ps[i].conv) == []
  {
    hide TurnLane.Of;
    TurnLane.RemoveOne(ps, i, ps[i].conv);
    var a, one, b := ps[..i], [ps[i]], ps[i + 1..];
    assert ps == a + (one + b);
    if c != ps[i].conv {
      var without := TurnLane.Of(b, c);
      assert TurnLane.Of(one + b, c) == without by {
        TurnLane.OfConcat(one, b, c);
        TurnLane.OfOwn(one, ps[i].conv, c);
        assert [] + without == without;
      }
      TurnLane.OfConcat(a, one + b, c);
      TurnLane.OfConcat(a, b, c);
    }
  }

  /** A cancel drops what waits and leaves the running turn alone. */
  lemma CancelMeans(events: seq<TurnLane.Event>, conv: string)
    requires TurnLane.IsRun(TurnLane.Initial, events)
    ensures var s := TurnLane.After(TurnLane.Initial, events);
            var t := TurnLane.Step(s, TurnLane.CancelCommand(conv));
            && OnlyAt(s, t, conv) && t.running == s.running && t.started == s.started
            && t.accepted == s.accepted && t.arrivals == s.arrivals
            && TurnLane.Waiting(t, conv) == [] && t.dropped == s.dropped + TurnLane.Waiting(s, conv)
            && (conv in t.turns <==> conv in s.turns)
  {
    hide TurnLane.After, TurnLane.IsRun;
  }

  // --- From a reply to a response ------------------------------------------------------

  /** `id` is that of the first action of this behaviour, scoped if that is asked for. */
  predicate FirstOf(actions: seq<Action>, behavior: string, scopedOnly: bool, id: Option<string>) {
    exists i :: 0 <= i < |actions| && Offers(actions[i], behavior, scopedOnly)
      && actions[i].id == id && NoneOf(actions[..i], behavior, scopedOnly)
  }

  predicate Offers(a: Action, behavior: string, scopedOnly: bool) {
    a.behavior == Some(behavior) && (scopedOnly ==> a.scoped)
  }

  predicate NoneOf(actions: seq<Action>, behavior: string, scopedOnly: bool) {
    forall a <- actions :: !Offers(a, behavior, scopedOnly)
  }

  /** The three words: each picks the first action of its kind, and `always` falls back on any allow. */
  lemma WordsMean(actions: seq<Action>, questions: seq<Question>)
    ensures var r := ResponseFor("deny", actions, questions);
            && r.Deny?
            && (FirstOf(actions, "deny", false, r.action) || (NoneOf(actions, "deny", false) && r.action == None))
    ensures var r := ResponseFor("allow", actions, questions);
            && r.Allow? && r.answers == None
            && (FirstOf(actions, "allow", false, r.action) || (NoneOf(actions, "allow", false) && r.action == None))
    ensures var r := ResponseFor("always", actions, questions);
            && r.Allow? && r.answers == None
            && if NoneOf(actions, "allow", true) then r == ResponseFor("allow", actions, questions)
               else FirstOf(actions, "allow", true, r.action)
  {
    var deny, allow := Find(actions, IsDeny), Find(actions, IsAllow);
    assert deny.None? ==> NoneOf(actions, "deny", false);
    assert deny.Some? ==> FirstOf(actions, "deny", false, actions[deny.value].id);
    assert allow.None? ==> NoneOf(actions, "allow", false) && NoneOf(actions, "allow", true);
    assert allow.Some? ==> FirstOf(actions, "allow", false, actions[allow.value].id);
    WordIs("allow", actions);
    WordIs("always", actions);
  }

  lemma WordIs(word: string, actions: seq<Action>)
    requires word == "allow" || word == "always"
    ensures var allow := Find(actions, IsAllow);
            var r := WordResponse(word, actions);
            && r.Allow? && r.answers == None
            && if word == "always" && !NoneOf(actions, "allow", true) then FirstOf(actions, "allow", true, r.action)
               else r.action == if allow.Some? then actions[allow.value].id else None
  {
    var p := (a: Action) => IsAllow(a) && (word != "always" || a.scoped);
    var i := Find(actions, p);
    if word == "always" {
      assert i.Some? ==> FirstOf(actions, "allow", true, actions[i.value].id);
      assert i.None? ==> NoneOf(actions, "allow", true);
    } else {
      SameFind(actions, p, IsAllow);
    }
  }

  lemma SameFind(actions: seq<Action>, p: Action -> bool, q: Action -> bool)
    requires forall a :: p(a) == q(a)
    ensures Find(actions, p) == Find(actions, q)
  {
    var i, j := Find(actions, p), Find(actions, q);
    assert i.Some? ==> q(actions[i.value]);
    assert j.Some? ==> p(actions[j.value]);
  }

  /** Anything else: `skip` answers nothing, a longer text answers the only question as it stands, and where
      there is no question or several of them it allows. */
  lemma OtherRepliesMean(reply: string, actions: seq<Action>, questions: seq<Question>)
    requires reply != "allow" && reply != "always" && reply != "deny"
    ensures reply == "skip" ==> ResponseFor(reply, actions, questions) == Allow(None, None)
    ensures reply != "skip" && |questions| == 1 && |reply| != 1 ==>
              ResponseFor(reply, actions, questions) == Allow(None, Some(Answer(questions[0].text, reply)))
    ensures reply != "skip" && |questions| != 1 ==>
              ResponseFor(reply, actions, questions) == ResponseFor("allow", actions, questions)
  {
  }

  // --- Pending asks ----------------------------------------------------------------------

  /** What the router takes as the reply to this ask, if it takes the message at all. */
  predicate Takes(ask: Permissions.Ask, m: Permissions.Message, answer: string) {
    && ask.requester == m.sender
    && if m.lower == "allow" || m.lower == "deny" || m.lower == "always" then answer == m.lower
       else
         && m.sawQuestion
         && if m.lower == "!skip" then answer == if ask.isQuestion then "skip" else m.lower
            else
              && |ask.questions| <= 1 && (TrimStart(m.text) == "" || TrimStart(m.text)[0] != '!')
              && answer == if ask.isQuestion then Trim(m.text) else m.lower
  }

  /** A reply is consumed exactly where its conversation has a pending ask that takes it: the ask is then
      answered and no longer pending. Otherwise nothing changes. */
  lemma ReplyMeans(s: Permissions.State, m: Permissions.Message)
    requires Permissions.Inv(s)
    ensures var t := Permissions.Step(s, Permissions.Replied(m));
            && t.asks == s.asks && t.waiters == s.waiters && t.responses == s.responses
            && (forall answer | m.conv in s.pending && Takes(s.asks[s.pending[m.conv]], m, answer) ::
                  && m.conv !in t.pending && t.pending == s.pending - {m.conv}
                  && t.answers == s.answers[s.pending[m.conv] := answer])
            && ((m.conv in s.pending ==> forall answer :: !Takes(s.asks[s.pending[m.conv]], m, answer)) ==> t == s)
  {
    hide ResponseFor, Trim, TrimStart;
    assert m.conv in s.pending ==> Permissions.PendingKept(s, m.conv, s.pending[m.conv]);
    var handling := Permissions.Handle(Permissions.PendingAsk(s, m.conv), m);
    if m.conv in s.pending {
      var ask := s.asks[s.pending[m.conv]];
      Bang(TrimStart(m.text));
      assert handling.Consumed? ==> Takes(ask, m, handling.answer);
      assert forall answer :: Takes(ask, m, answer) ==> handling == Permissions.Consumed(answer);
    }
  }

  lemma Bang(s: string)
    ensures "!" <= s <==> s != "" && s[0] == '!'
  {
    if s != "" && s[0] == '!' {
      assert s[..1] == "!";
    }
  }

  /** A new ask replaces its conversation's pending one; the end of the matter or of the turn leaves none. */
  lemma LaneChanges(s: Permissions.State, ask: Permissions.Ask, conv: string)
    requires Permissions.Inv(s)
    ensures var t := Permissions.Step(s, Permissions.Requested(ask));
            && Permissions.IsPending(t, |s.asks|)
            && t.asks == s.asks + [ask] && t.waiters == s.waiters + [Permissions.Waiting]
            && t.answers == s.answers && t.responses == s.responses
            && forall a | 0 <= a < |s.asks| && s.asks[a].conv != ask.conv ::
                 Permissions.IsPending(t, a) <==> Permissions.IsPending(s, a)
    ensures forall e | e == Permissions.Resolved(conv) || e == Permissions.TurnEnded(conv) ::
              var t := Permissions.Step(s, e);
              && conv !in t.pending && t.(pending := s.pending) == s
              && forall a | 0 <= a < |s.asks| && s.asks[a].conv != conv ::
                   Permissions.IsPending(t, a) <==> Permissions.IsPending(s, a)
  {
  }
}
