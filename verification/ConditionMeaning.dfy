/** What conditions mean, clause by clause (src/mission.rs:143-276, 464-500): which strings are accepted and
    as what, what a clause asks of a value, and so which edges fire. */
module ConditionMeaning {
  import opened Text
  import opened Conditions
  import opened Flow

  // --- Which strings are conditions ------------------------------------------------

  /** The words between the `or`s, without the `and`s. */
  function OrParts(words: seq<string>): (parts: seq<seq<string>>)
    ensures parts != []
  {
    if words == [] then [[]]
    else
      var rest := OrParts(words[1..]);
      var word := ToAsciiLower(words[0]);
      if word == "or" then [[]] + rest
      else if word == "and" then rest
      else [[words[0]] + rest[0]] + rest[1..]
  }

  /** The parts joined on to those collected so far: the first one continues the last. */
  function Continued(parts: seq<seq<string>>, more: seq<seq<string>>): seq<seq<string>>
    requires parts != [] && more != []
  {
    var last := |parts| - 1;
    parts[..last] + [parts[last] + more[0]] + more[1..]
  }

  lemma {:induction false} FeedIsOrParts(parts: seq<seq<string>>, words: seq<string>)
    requires parts != []
    ensures Feed(parts, words) == Continued(parts, OrParts(words))
    decreases |words|
  {
    hide IsOr, IsAnd, Feed, ToAsciiLower, Continued;
    if words == [] {
      FeedNothing(parts);
      ContinuedNothing(parts);
    } else {
      var w := words[0];
      assert words == [w] + words[1..];
      FeedConcat(parts, [w], words[1..]);
      FeedWord(parts, w);
      KeywordIs(w);
      FeedIsOrParts(Feed(parts, [w]), words[1..]);
      ContinuedOr(parts, OrParts(words[1..]));
      ContinuedWord(parts, w, OrParts(words[1..]));
    }
  }

  lemma ContinuedNothing(parts: seq<seq<string>>)
    requires parts != []
    ensures Continued(parts, [[]]) == parts
  {
    assert parts[|parts| - 1] + [] == parts[|parts| - 1];
  }

  lemma ContinuedOr(parts: seq<seq<string>>, rest: seq<seq<string>>)
    requires parts != [] && rest != []
    ensures Continued(parts + [[]], rest) == Continued(parts, [[]] + rest)
  {
    var last := |parts| - 1;
    assert parts[last] + [] == parts[last] && [] + rest[0] == rest[0];
    assert (parts + [[]])[..last + 1] == parts == parts[..last] + [parts[last]];
    assert [rest[0]] + rest[1..] == rest == ([[]] + rest)[1..];
  }

  lemma ContinuedWord(parts: seq<seq<string>>, w: string, rest: seq<seq<string>>)
    requires parts != [] && rest != []
    ensures var last := |parts| - 1;
            Continued(parts[last := parts[last] + [w]], rest) == Continued(parts, [[w] + rest[0]] + rest[1..])
  {
    var last := |parts| - 1;
    assert parts[last] + ([w] + rest[0]) == (parts[last] + [w]) + rest[0];
    assert ([[w] + rest[0]] + rest[1..])[1..] == rest[1..];
  }

  lemma FeedNothing(parts: seq<seq<string>>)
    requires parts != []
    ensures Feed(parts, []) == parts
  {
  }

  lemma KeywordIs(word: string)
    ensures IsOr(word) <==> ToAsciiLower(word) == "or"
    ensures IsAnd(word) <==> ToAsciiLower(word) == "and"
  {
  }

  /** The group's clauses are the part's words, one for one. */
  ghost predicate Reads(part: seq<string>, g: Group) {
    part != [] && |g| == |part| && forall j :: 0 <= j < |g| ==> IsClause(g[j]) && PrintClause(g[j]) == part[j]
  }

  lemma ClauseReads(word: string, c: Clause)
    requires IsWord(word)
    ensures ParseClause(word) == Some(c) <==> IsClause(c) && PrintClause(c) == word
  {
    hide ParseClause, IsClause, PrintClause, IsWord;
    if ParseClause(word) == Some(c) {
      ParsedClauseIsClause(word);
    }
    if IsClause(c) && PrintClause(c) == word {
      ParsePrinted(c);
    }
  }

  lemma PartReads(part: seq<string>, g: Group)
    requires forall j :: 0 <= j < |part| ==> IsWord(part[j])
    ensures ParsePart(part) == Some(g) <==> Reads(part, g)
  {
    hide ParseClause, IsClause, PrintClause, IsWord;
    forall j, c | 0 <= j < |part|
      ensures ParseClause(part[j]) == Some(c) <==> IsClause(c) && PrintClause(c) == part[j]
    {
      ClauseReads(part[j], c);
    }
    if Reads(part, g) {
      TraverseIs(ParseClause, part, g);
    }
  }

  /** A string is accepted, as `e`, exactly if its or-parts are the printed clauses of `e`'s groups: no word
      but the keywords is dropped, none may be malformed, and no part may be empty. */
  lemma AcceptedIff(condition: string, e: Expression)
    ensures var parts := OrParts(SplitWhitespace(condition));
            ParseCondition(condition) == Some(e) <==>
            |e| == |parts| && forall i :: 0 <= i < |e| ==> Reads(parts[i], e[i])
  {
    hide ParsePart, Reads, Feed, IsWord, OrParts;
    var words := SplitWhitespace(condition);
    var parts := Feed([[]], words);
    FeedIsOrParts([[]], words);
    assert Continued([[]], OrParts(words)) == OrParts(words) by {
      assert [] + OrParts(words)[0] == OrParts(words)[0];
    }
    FeedKeepsWords(words);
    forall i, g | 0 <= i < |parts| ensures ParsePart(parts[i]) == Some(g) <==> Reads(parts[i], g) {
      PartReads(parts[i], g);
    }
    if |e| == |parts| && forall i :: 0 <= i < |e| ==> Reads(parts[i], e[i]) {
      TraverseIs(ParsePart, parts, e);
    }
  }

  // --- What a condition asks ---------------------------------------------------------

  /** The text that a value is compared by. */
  function Token(j: Json): string {
    match j
    case Str(s) => s
    case Null => "null"
    case Scalar(text) => text
    case Object(_, text) => text
  }

  /** What a key stands for: the source's output first, then the flow's settings, by their full or bare name. */
  function Found(context: Context, settings: Context, key: string): Option<Json> {
    if key in context then Some(context[key])
    else if "settings." <= key then
      if key[9..] in settings then Some(settings[key[9..]]) else None
    else if key in settings then Some(settings[key])
    else None
  }

  /** Holds of a present value only: equality of tokens, or their difference. */
  predicate Holds(c: Clause, context: Context, settings: Context) {
    var found := Found(context, settings, c.key);
    found.Some? && found.value != Null &&
    if c.negate then Token(found.value) != c.value else Token(found.value) == c.value
  }

  lemma MatchesMeans(c: Clause, context: Context, settings: Context)
    ensures ClauseMatches(c, context, settings) <==> Holds(c, context, settings)
  {
  }

  /** A printed condition holds exactly if all clauses of some group do. */
  lemma EvaluateMeans(e: Expression, context: Context, settings: Context)
    requires IsExpression(e)
    ensures Evaluate(Print(e), context, settings) <==>
            exists g <- e :: forall c <- g :: Holds(c, context, settings)
  {
    hide Print, ParseCondition, AnyGroup, ClauseMatches, Holds, IsExpression, IsDefault;
    ParsePrint(e);
    NotDefault(e);
    AnyGroupIff(e, context, settings);
    assert forall c :: ClauseMatches(c, context, settings) <==> Holds(c, context, settings) by {
      forall c ensures ClauseMatches(c, context, settings) <==> Holds(c, context, settings) {
        MatchesMeans(c, context, settings);
      }
    }
  }

  /** In particular one clause: `key=value` asks for that token, `key!=value` for any other. */
  lemma ClauseMeans(c: Clause, context: Context, settings: Context)
    requires IsClause(c)
    ensures Evaluate(PrintClause(c), context, settings) <==> Holds(c, context, settings)
  {
    hide Holds, IsClause, PrintClause, ClauseMatches, IsDefault, ParseCondition, AnyGroup, IsExpression, Print;
    OneClausePrints(c);
    NotDefault([[c]]);
    ParsePrint([[c]]);
    OneClause(c, context, settings);
    MatchesMeans(c, context, settings);
  }

  lemma OneClause(c: Clause, context: Context, settings: Context)
    ensures AnyGroup([[c]], context, settings) <==> ClauseMatches(c, context, settings)
  {
    hide ClauseMatches;
    assert [[c]][1..] == [] && [c][1..] == [];
    assert AllClauses([c], context, settings) <==> ClauseMatches(c, context, settings);
  }

  lemma OneClausePrints(c: Clause)
    requires IsClause(c)
    ensures IsExpression([[c]]) && Print([[c]]) == PrintClause(c)
  {
    hide PrintClause, IsClause;
    assert ExpressionWords([[c]]) == [PrintClause(c)];
  }

  lemma {:induction false} TrimStartKeeps(s: string, i: nat)
    requires i < |s| && !IsWhitespace(s[i])
    ensures s[i] in TrimStart(s)
  {
    if IsWhitespace(s[0]) {
      TrimStartKeeps(s[1..], i - 1);
    }
  }

  lemma {:induction false} TrimEndKeeps(s: string, i: nat)
    requires i < |s| && !IsWhitespace(s[i])
    ensures s[i] in TrimEnd(s)
  {
    if IsWhitespace(s[|s| - 1]) {
      TrimEndKeeps(s[..|s| - 1], i);
    }
  }

  /** No condition with an operator is a default one. */
  lemma OperatorIsNotDefault(s: string, i: nat)
    requires i < |s| && s[i] == '='
    ensures !IsDefault(Some(s))
  {
    hide TrimStart, TrimEnd;
    TrimStartKeeps(s, i);
    var t := TrimStart(s);
    var j :| 0 <= j < |t| && t[j] == '=';
    TrimEndKeeps(t, j);
    var u := Trim(s);
    var k :| 0 <= k < |u| && u[k] == '=';
    assert ToAsciiLower(u)[k] == '=';
    assert '=' !in "default";
  }

  lemma NotDefault(e: Expression)
    requires IsExpression(e)
    ensures !IsDefault(Some(Print(e)))
  {
    hide IsDefault, IsClause, IsWord;
    var words := ExpressionWords(e);
    FirstWord(e);
    var c := e[0][0];
    var n := |c.key| + if c.negate then 1 else 0;
    assert PrintClause(c)[n] == '=';
    OperatorIsNotDefault(Print(e), n);
  }

  lemma {:induction false} FirstWord(e: Expression)
    requires IsExpression(e)
    ensures PrintClause(e[0][0]) <= Print(e)
  {
    hide PrintClause, IsClause;
    FirstOfWords(e);
    var words := ExpressionWords(e);
    assert JoinWithSpaces(words)[..|words[0]|] == words[0];
  }

  lemma {:induction false} FirstOfWords(e: Expression)
    requires IsExpression(e)
    ensures ExpressionWords(e) != [] && ExpressionWords(e)[0] == PrintClause(e[0][0])
  {
    hide PrintClause, IsClause;
    if |e| == 1 {
      FirstOfGroup(e[0]);
    } else {
      FirstOfWords(e[..|e| - 1]);
    }
  }

  lemma {:induction false} FirstOfGroup(g: Group)
    requires IsGroup(g)
    ensures GroupWords(g) != [] && GroupWords(g)[0] == PrintClause(g[0])
  {
    hide PrintClause, IsClause;
    if |g| > 1 {
      FirstOfGroup(g[..|g| - 1]);
    }
  }

  // --- Default conditions --------------------------------------------------------

  /** No condition at all, a blank one, and the word `default` in any case and between any blanks. */
  lemma DefaultIs(before: string, word: string, after: string)
    requires forall c <- before + after :: IsWhitespace(c)
    requires IsWord(word)
    ensures IsDefault(None) && IsDefault(Some(before + after))
    ensures IsDefault(Some(before + (word + after))) <==> ToAsciiLower(word) == "default"
  {
    hide ToAsciiLower;
    TrimBlanks(before, word, after);
    TrimNothing(before + after);
  }

  lemma {:induction false} TrimBlanks(before: string, word: string, after: string)
    requires IsWord(word) && forall c <- before + after :: IsWhitespace(c)
    ensures Trim(before + (word + after)) == word
    decreases |before| + |after|
  {
    if before != [] {
      assert before[0] in before + after;
      assert (before + (word + after))[1..] == before[1..] + (word + after);
      TrimBlanks(before[1..], word, after);
    } else {
      assert before + (word + after) == word + after;
      TrimTail(word, after);
    }
  }

  lemma {:induction false} TrimTail(word: string, after: string)
    requires IsWord(word) && forall c <- after :: IsWhitespace(c)
    ensures TrimStart(word + after) == word + after && TrimEnd(word + after) == word
    decreases |after|
  {
    if after == [] {
      assert word + after == word;
      TrimWord(word);
    } else {
      var last := |after| - 1;
      assert after[last] in after;
      assert (word + after)[..|word + after| - 1] == word + after[..last];
      TrimTail(word, after[..last]);
    }
  }

  lemma {:induction false} TrimNothing(s: string)
    requires forall c <- s :: IsWhitespace(c)
    ensures Trim(s) == []
  {
    if s != [] {
      TrimNothing(s[1..]);
    }
  }

  // --- Edges ---------------------------------------------------------------------------

  /** What the condition of an edge sees: the members of an object output, any other output as `value`, and
      the whole output as `output`. */
  lemma ContextIs(output: Json)
    ensures var context := OutputContext(output);
            && "output" in context && context["output"] == output
            && (output.Object? ==>
                  forall k :: k != "output" ==>
                    (k in context <==> k in output.fields) && (k in context ==> context[k] == output.fields[k]))
            && (!output.Object? ==> context.Keys == {"output", "value"} && context["value"] == output)
  {
    assert "output" != "value" by { assert "output"[0] == 'o'; }
  }

  lemma SettingsAre(def: Definition)
    ensures Settings(def) ==
            map["concurrency" := Scalar(Decimal(def.concurrency)), "retries" := Scalar(Decimal(def.retries))]
  {
  }

  /** An edge with a printed condition fires on an output exactly if the clauses of some group hold of it. */
  lemma EdgeMeans(def: Definition, edge: Edge, e: Expression, output: Json)
    requires IsExpression(e) && edge.condition == Some(Print(e))
    ensures EdgeFires(def, edge, output) <==>
            exists g <- e :: forall c <- g :: Holds(c, OutputContext(output), Settings(def))
  {
    hide Evaluate, Print, IsExpression, Holds, IsDefault, OutputContext, Settings;
    NotDefault(e);
    EvaluateMeans(e, OutputContext(output), Settings(def));
  }
}
