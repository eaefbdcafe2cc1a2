/** From a reply text to a permission response (src/channel.rs:2249-2312, 2385-2388, 2416-2489). */
module Responses {
  import opened Text

  /** `scoped` tells whether the id or label speaks of a session or of always. */
  datatype Action = Action(id: Option<string>, title: Option<string>, behavior: Option<string>, scoped: bool)

  /** The labels of the offered options, in order. */
  datatype Question = Question(text: string, options: seq<string>)

  datatype Answer = Answer(question: string, answer: string)

  datatype Response = Allow(action: Option<string>, answers: Option<Answer>) | Deny(action: Option<string>)

  predicate IsAllow(a: Action) {
    a.behavior == Some("allow")
  }

  predicate IsDeny(a: Action) {
    a.behavior == Some("deny")
  }

  /** Index of the first element that satisfies `p`. */
  function Find(actions: seq<Action>, p: Action -> bool): (r: Option<nat>)
    ensures r.None? ==> forall i :: 0 <= i < |actions| ==> !p(actions[i])
    ensures r.Some? ==> r.value < |actions| && p(actions[r.value]) && forall i :: 0 <= i < r.value ==> !p(actions[i])
  {
    if actions == [] then None
    else if p(actions[0]) then Some(0)
    else
      match Find(actions[1..], p)
      case None => None
      case Some(i) =>
        assert forall k :: 0 < k < i + 1 ==> actions[k] == actions[1..][k - 1];
        Some(i + 1)
  }

  function OrElse(a: Option<nat>, b: Option<nat>): Option<nat> {
    if a.Some? then a else b
  }

  function IdAt(actions: seq<Action>, i: Option<nat>): Option<string>
    requires i.Some? ==> i.value < |actions|
  {
    if i.Some? then actions[i.value].id else None
  }

  // --- Words -----------------------------------------------------------------------

  /** The offered action that a reply word selects. */
  function Selected(reply: string, actions: seq<Action>): (r: Option<nat>)
    ensures r.Some? ==> r.value < |actions|
  {
    if reply == "deny" then Find(actions, IsDeny)
    else OrElse(
      Find(actions, (a: Action) => IsAllow(a) && (reply != "always" || a.scoped)),
      Find(actions, IsAllow))
  }

  function WordResponse(reply: string, actions: seq<Action>): Response {
    var id := IdAt(actions, Selected(reply, actions));
    if reply == "deny" then Deny(id) else Allow(id, None)
  }

  /** The action whose label a choice shows: `allow` prefers the unscoped one, and `always` is shown
      only when a scoped one is offered. */
  function Shown(word: string, actions: seq<Action>): (r: Option<nat>)
    ensures r.Some? ==> r.value < |actions|
  {
    if word == "deny" then Find(actions, IsDeny)
    else if word == "always" then Find(actions, (a: Action) => IsAllow(a) && a.scoped)
    else OrElse(Find(actions, (a: Action) => IsAllow(a) && !a.scoped), Find(actions, IsAllow))
  }

  /** A response names an offered action of its own behaviour; `always` takes a scoped one if there is any. */
  lemma WordResponseIsOffered(reply: string, actions: seq<Action>)
    ensures var i := Selected(reply, actions);
            && (reply == "deny" <==> WordResponse(reply, actions).Deny?)
            && (i.Some? ==> if reply == "deny" then IsDeny(actions[i.value]) else IsAllow(actions[i.value]))
            && (i.None? ==> forall a <- actions :: if reply == "deny" then !IsDeny(a) else !IsAllow(a))
            && (i.Some? && reply == "always" && !actions[i.value].scoped ==>
                  forall a <- actions :: IsAllow(a) ==> !a.scoped)
  {
  }

  /** `always` and `deny` select what their choice shows, whenever it shows something. */
  lemma ShownIsSelected(word: string, actions: seq<Action>)
    requires word == "always" || word == "deny"
    ensures Shown(word, actions).Some? ==> Selected(word, actions) == Shown(word, actions)
    ensures word == "deny" ==> Selected(word, actions) == Shown(word, actions)
  {
  }

  /** `allow` selects what its choice shows unless the first offered allow is scoped and a later
      one is not. */
  lemma AllowIsShownIff(actions: seq<Action>)
    ensures Selected("allow", actions) == Shown("allow", actions) <==>
            var first := Find(actions, IsAllow);
            first.Some? && actions[first.value].scoped ==> forall a <- actions :: IsAllow(a) ==> a.scoped
  {
  }

  // --- Answers to questions ----------------------------------------------------------

  function OptionLetter(i: nat): char {
    'a' + (if i < 25 then i else 25) as char
  }

  /** The first option that carries the letter. */
  function OptionFor(c: char, options: seq<string>, from: nat): (r: Option<string>)
    requires from <= |options|
    decreases |options| - from
  {
    if from == |options| then None
    else if OptionLetter(from) == c then Some(options[from])
    else OptionFor(c, options, from + 1)
  }

  function AnswerText(reply: string, questions: seq<Question>): string {
    if |reply| != 1 || questions == [] then reply
    else match OptionFor(reply[0], questions[0].options, 0)
      case Some(option) => option
      case None => reply
  }

  function ResponseFor(reply: string, actions: seq<Action>, questions: seq<Question>): Response {
    if reply == "skip" then Allow(None, None)
    else if reply in ["allow", "always", "deny"] then WordResponse(reply, actions)
    else if |questions| == 1 then Allow(None, Some(Answer(questions[0].text, AnswerText(reply, questions))))
    else WordResponse("allow", actions)
  }

  /** Only the word `deny` denies. */
  lemma DeniesIffDeny(reply: string, actions: seq<Action>, questions: seq<Question>)
    ensures ResponseFor(reply, actions, questions).Deny? <==> reply == "deny"
  {
  }

  lemma {:induction false} OptionForLetter(i: nat, options: seq<string>, from: nat)
    requires from <= i < |options| && i < 26
    ensures OptionFor(OptionLetter(i), options, from) == Some(options[i])
    decreases i - from
  {
    if from < i {
      OptionForLetter(i, options, from + 1);
    }
  }

  lemma {:induction false} OptionForOther(c: char, options: seq<string>, from: nat)
    requires from <= |options| && forall i :: from <= i < |options| ==> OptionLetter(i) != c
    ensures OptionFor(c, options, from) == None
    decreases |options| - from
  {
    if from < |options| {
      OptionForOther(c, options, from + 1);
    }
  }

  /** Each of the first 26 options is reached by its letter, so letters are unambiguous up to there;
      any other one-character answer stands for itself. */
  lemma LettersReachOptions(question: Question, actions: seq<Action>, c: char)
    ensures var i := c as int - 'a' as int;
            var answer := if 0 <= i < 26 && i < |question.options| then question.options[i] else [c];
            ResponseFor([c], actions, [question]) == Allow(None, Some(Answer(question.text, answer)))
  {
    var i := c as int - 'a' as int;
    if 0 <= i < 26 && i < |question.options| {
      assert OptionLetter(i) == c;
      OptionForLetter(i, question.options, 0);
    } else {
      forall k | 0 <= k < |question.options| ensures OptionLetter(k) != c {
        assert OptionLetter(k) as int == 'a' as int + if k < 25 then k else 25;
      }
      OptionForOther(c, question.options, 0);
    }
  }
}
