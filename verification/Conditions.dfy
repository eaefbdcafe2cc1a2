/** The edge-condition grammar: `key=value` and `key!=value` clauses, `and` binding
    tighter than `or` (src/mission.rs:114-276). */
module Conditions {
  import opened Text

  /** A JSON value as conditions see it: strings compare by content, every other value
      by its JSON text, and only objects have members. */
  datatype Json =
    | Null
    | Str(s: string)
    | Scalar(text: string)
    | Object(fields: Context, text: string)

  type Context = map<string, Json>

  datatype Clause = Clause(key: string, negate: bool, value: string)

  type Group = seq<Clause>
  type Expression = seq<Group>

  // --- Clauses ---------------------------------------------------------------

  predicate IsKey(key: string) {
    && key != []
    && (IsAsciiAlpha(key[0]) || key[0] == '_')
    && forall i :: 0 <= i < |key| ==> IsAsciiAlnum(key[i]) || key[i] == '_' || key[i] == '.'
  }

  function ParseClause(raw: string): Option<Clause> {
    var s := Trim(raw);
    match (FindPair(s, '!', '='), IndexOf(s, '='))
    case (Some(n), Some(e)) =>
      if n + 1 == e then FinishClause(TrimEnd(s[..n]), true, s[e + 1..]) else None
    case (Some(_), None) => None
    case (None, Some(e)) => FinishClause(TrimEnd(s[..e]), false, s[e + 1..])
    case (None, None) => None
  }

  function FinishClause(key: string, negate: bool, rest: string): Option<Clause> {
    var value := Trim(rest);
    if !IsKey(key) || !IsWord(value) then None else Some(Clause(key, negate, value))
  }

  function PrintClause(c: Clause): string {
    c.key + (if c.negate then "!=" else "=") + c.value
  }

  /** What the clause parser can produce: an identifier key, a one-word value, and no
      `!=` in the value of an equality (that input is rejected as malformed). */
  predicate IsClause(c: Clause) {
    IsKey(c.key) && IsWord(c.value) && (!c.negate ==> FindPair(c.value, '!', '=').None?)
  }

  lemma KeyHasNoOperator(key: string)
    requires IsKey(key)
    ensures forall i :: 0 <= i < |key| ==> key[i] != '=' && key[i] != '!' && !IsWhitespace(key[i])
  {
  }

  lemma {:induction false} ParsedClauseIsClause(word: string)
    requires IsWord(word) && ParseClause(word).Some?
    ensures IsClause(ParseClause(word).value)
    ensures PrintClause(ParseClause(word).value) == word
  {
    hide IsWhitespace, IsKey, IndexOf, FindPair, Trim;
    TrimWord(word);
    var neq, eq := FindPair(word, '!', '='), IndexOf(word, '=');
    var key := word[..if neq.Some? then neq.value else eq.value];
    var rest := word[eq.value + 1..];
    TrimWord(key);
    TrimWord(rest);
    assert ParseClause(word) == FinishClause(key, neq.Some?, rest);
    hide ParseClause;
    if neq.Some? {
      assert word == key + "!=" + rest;
    } else {
      assert word == key + "=" + rest;
      assert forall i :: PairAt(rest, '!', '=', i) ==> PairAt(word, '!', '=', eq.value + 1 + i);
    }
  }

  lemma PrintedClauseIsWord(c: Clause)
    requires IsClause(c)
    ensures IsWord(PrintClause(c)) && !IsKeyword(PrintClause(c))
  {
    KeyHasNoOperator(c.key);
    var s := PrintClause(c);
    assert s[|c.key| + (if c.negate then 1 else 0)] == '=';
    assert ToAsciiLower(s)[|c.key| + (if c.negate then 1 else 0)] == '=';
  }

  /** The clause parser reads back exactly the clauses that it could have produced. */
  lemma ParsePrintClause(c: Clause)
    requires IsWord(PrintClause(c))
    ensures ParseClause(PrintClause(c)) == Some(c) <==> IsClause(c)
  {
    if ParseClause(PrintClause(c)) == Some(c) {
      ParsedClauseIsClause(PrintClause(c));
    }
    if IsClause(c) {
      ParsePrinted(c);
    }
  }

  lemma PrintedOperators(c: Clause)
    requires IsClause(c)
    ensures var s := PrintClause(c);
            var k := |c.key|;
            && IndexOf(s, '=') == Some(if c.negate then k + 1 else k)
            && FindPair(s, '!', '=') == if c.negate then Some(k) else None
  {
    hide IndexOf, FindPair, IsWord, IsKey;
    KeyHasNoOperator(c.key);
    if c.negate {
      NotEqualsAt(c.key, c.value);
    } else {
      EqualsAt(c.key, c.value);
    }
  }

  lemma EqualsAt(key: string, value: string)
    requires '=' !in key && '!' !in key && FindPair(value, '!', '=').None?
    ensures var s := key + "=" + value; IndexOf(s, '=') == Some(|key|) && FindPair(s, '!', '=') == None
  {
    hide IndexOf, FindPair;
    var s := key + "=" + value;
    assert forall i :: 0 <= i < |key| ==> s[i] == key[i] && s[i] in key;
    assert s[|key|] == '=';
    assert s[|key| + 1..] == value;
    forall i ensures !PairAt(s, '!', '=', i) {
      assert !PairAt(value, '!', '=', i - |key| - 1);
      assert |key| < i < |s| ==> s[i] == value[i - |key| - 1];
    }
  }

  lemma NotEqualsAt(key: string, value: string)
    requires '=' !in key && '!' !in key
    ensures var s := key + "!=" + value; IndexOf(s, '=') == Some(|key| + 1) && FindPair(s, '!', '=') == Some(|key|)
  {
    hide IndexOf, FindPair;
    var s := key + "!=" + value;
    assert forall i :: 0 <= i < |key| ==> s[i] == key[i] && s[i] in key;
    assert s[|key|] == '!' && s[|key| + 1] == '=';
    assert PairAt(s, '!', '=', |key|);
  }

  lemma {:induction false} ParsePrinted(c: Clause)
    requires IsClause(c)
    ensures ParseClause(PrintClause(c)) == Some(c)
  {
    var s := PrintClause(c);
    PrintedClauseIsWord(c);
    PrintedOperators(c);
    TrimWord(s);
    TrimWord(c.value);
    KeyHasNoOperator(c.key);
    TrimWord(c.key);
    var k := |c.key|;
    var e := if c.negate then k + 1 else k;
    assert s[..k] == c.key;
    assert s[e + 1..] == c.value;
  }

  // --- Expressions -----------------------------------------------------------

  predicate IsOr(word: string) { ToAsciiLower(word) == "or" }
  predicate IsAnd(word: string) { ToAsciiLower(word) == "and" }
  predicate IsKeyword(word: string) { IsOr(word) || IsAnd(word) }

  /** Feeds words into the or-parts collected so far: `or` opens a part, `and` is skipped. */
  function Feed(parts: seq<seq<string>>, words: seq<string>): (r: seq<seq<string>>)
    requires parts != []
    ensures r != []
  {
    if words == [] then parts
    else
      var before := Feed(parts, words[..|words| - 1]);
      var word := words[|words| - 1];
      var last := |before| - 1;
      if IsOr(word) then before + [[]]
      else if IsAnd(word) then before
      else before[last := before[last] + [word]]
  }

  /** All words parsed as clauses, or None when any of them is malformed. */
  function ParseGroup(part: seq<string>): Option<Group> {
    Traverse(ParseClause, part)
  }

  /** An empty part comes from a leading, trailing or doubled `or`. */
  function ParsePart(part: seq<string>): Option<Group> {
    if part == [] then None else ParseGroup(part)
  }

  function ParseCondition(condition: string): Option<Expression> {
    Traverse(ParsePart, Feed([[]], SplitWhitespace(condition)))
  }

  /** The parser as the source runs it: one scan that grows the last or-part, then one
      clause at a time, dropping malformed clauses and comparing lengths. */
  method ScanCondition(condition: string) returns (parsed: Option<Expression>)
    ensures parsed == ParseCondition(condition)
  {
    hide ParseGroup, IsOr, IsAnd;
    var words := SplitWhitespace(condition);
    var parts: seq<seq<string>> := [[]];
    for i := 0 to |words|
      invariant parts == Feed([[]], words[..i])
    {
      assert words[..i + 1][..i] == words[..i];
      if IsOr(words[i]) {
        parts := parts + [[]];
      } else if !IsAnd(words[i]) {
        parts := parts[|parts| - 1 := parts[|parts| - 1] + [words[i]]];
      }
    }
    assert words[..|words|] == words;
    var groups: Expression := [];
    for i := 0 to |parts|
      invariant Traverse(ParsePart, parts[..i]) == Some(groups)
    {
      assert parts[..i + 1][..i] == parts[..i];
      var group := ScanGroup(parts[i]);
      if parts[i] == [] || |group| != |parts[i]| {
        assert ParsePart(parts[i]).None?;
        return None;
      }
      groups := groups + [group];
    }
    assert parts[..|parts|] == parts;
    return Some(groups);
  }

  method ScanGroup(part: seq<string>) returns (group: Group)
    ensures |group| == |part| <==> ParseGroup(part).Some?
    ensures |group| == |part| ==> ParseGroup(part) == Some(group)
  {
    hide ParseClause;
    group := [];
    for i := 0 to |part|
      invariant |group| <= i
      invariant |group| == i <==> ParseGroup(part[..i]).Some?
      invariant |group| == i ==> ParseGroup(part[..i]) == Some(group)
    {
      assert part[..i + 1][..i] == part[..i];
      var clause := ParseClause(part[i]);
      if clause.Some? {
        group := group + [clause.value];
      }
    }
    assert part[..|part|] == part;
  }

  // --- Printing and the round trip -------------------------------------------

  predicate IsGroup(g: Group) {
    g != [] && forall i :: 0 <= i < |g| ==> IsClause(g[i])
  }

  predicate IsExpression(e: Expression) {
    e != [] && forall i :: 0 <= i < |e| ==> IsGroup(e[i])
  }

  function PrintedClauses(g: Group): (r: seq<string>)
    ensures |r| == |g| && forall i :: 0 <= i < |g| ==> r[i] == PrintClause(g[i])
  {
    seq(|g|, i requires 0 <= i < |g| => PrintClause(g[i]))
  }

  function GroupWords(g: Group): seq<string>
    requires g != []
  {
    if |g| == 1 then [PrintClause(g[0])]
    else GroupWords(g[..|g| - 1]) + ["and", PrintClause(g[|g| - 1])]
  }

  function ExpressionWords(e: Expression): seq<string>
    requires e != [] && forall i :: 0 <= i < |e| ==> e[i] != []
  {
    if |e| == 1 then GroupWords(e[0])
    else ExpressionWords(e[..|e| - 1]) + ["or"] + GroupWords(e[|e| - 1])
  }

  /** `a=1 and b=2 or c=3`: clauses joined by ` and `, groups by ` or `. */
  function Print(e: Expression): string
    requires IsExpression(e)
  {
    JoinWithSpaces(ExpressionWords(e))
  }

  lemma {:induction false} FeedConcat(parts: seq<seq<string>>, a: seq<string>, b: seq<string>)
    requires parts != []
    ensures Feed(parts, a + b) == Feed(Feed(parts, a), b)
  {
    if b == [] {
      assert a + b == a;
    } else {
      var last := |b| - 1;
      assert (a + b)[..|a + b| - 1] == a + b[..last];
      FeedConcat(parts, a, b[..last]);
    }
  }

  lemma FeedWord(parts: seq<seq<string>>, word: string)
    requires parts != []
    ensures Feed(parts, [word]) ==
            if IsOr(word) then parts + [[]]
            else if IsAnd(word) then parts
            else parts[|parts| - 1 := parts[|parts| - 1] + [word]]
  {
    assert [word][..0] == [];
    assert Feed(parts, []) == parts;
  }

  lemma AndIsNotOr()
    ensures IsAnd("and") && !IsOr("and") && IsOr("or")
  {
    assert ToAsciiLower("and") == "and" && ToAsciiLower("or") == "or";
  }

  /** Feeding one more word with its `and` extends the open part by that word. */
  lemma FeedAndWord(parts: seq<seq<string>>, word: string)
    requires parts != [] && !IsKeyword(word)
    ensures Feed(parts, ["and", word]) == parts[|parts| - 1 := parts[|parts| - 1] + [word]]
  {
    assert ["and", word] == ["and"] + [word];
    FeedConcat(parts, ["and"], [word]);
    AndIsNotOr();
    FeedWord(parts, "and");
    FeedWord(parts, word);
  }

  lemma {:induction false} FeedGroup(parts: seq<seq<string>>, g: Group)
    requires parts != [] && parts[|parts| - 1] == [] && IsGroup(g)
    ensures Feed(parts, GroupWords(g)) == parts[|parts| - 1 := PrintedClauses(g)]
  {
    hide IsClause, PrintClause, Feed, IsKeyword, IsOr, IsAnd;
    var last := |g| - 1;
    var word := PrintClause(g[last]);
    PrintedClauseIsWord(g[last]);
    if last == 0 {
      assert !IsOr(word) && !IsAnd(word) by { NotKeyword(word); }
      FeedWord(parts, word);
      assert PrintedClauses(g) == [] + [word];
    } else {
      var init := g[..last];
      FeedGroup(parts, init);
      FeedConcat(parts, GroupWords(init), ["and", word]);
      FeedAndWord(Feed(parts, GroupWords(init)), word);
      assert PrintedClauses(g) == PrintedClauses(init) + [word];
    }
  }

  lemma NotKeyword(word: string)
    requires !IsKeyword(word)
    ensures !IsOr(word) && !IsAnd(word)
  {
  }

  lemma {:induction false} FeedExpression(e: Expression)
    requires IsExpression(e)
    ensures var parts := Feed([[]], ExpressionWords(e));
            |parts| == |e| && forall i :: 0 <= i < |e| ==> parts[i] == PrintedClauses(e[i])
  {
    assert forall i :: 0 <= i < |e| ==> e[i] != [];
    hide IsGroup, Feed;
    var last := |e| - 1;
    if last == 0 {
      FeedGroup([[]], e[0]);
    } else {
      var init := e[..last];
      FeedExpression(init);
      var words := ExpressionWords(init);
      var parts := Feed([[]], words);
      FeedConcat([[]], words + ["or"], GroupWords(e[last]));
      FeedConcat([[]], words, ["or"]);
      FeedWord(parts, "or");
      AndIsNotOr();
      FeedGroup(parts + [[]], e[last]);
    }
  }

  lemma {:induction false} ExpressionWordsAreWords(e: Expression)
    requires IsExpression(e)
    ensures forall w <- ExpressionWords(e) :: IsWord(w)
  {
    var last := |e| - 1;
    GroupWordsAreWords(e[last]);
    if last > 0 {
      ExpressionWordsAreWords(e[..last]);
    }
  }

  lemma {:induction false} GroupWordsAreWords(g: Group)
    requires IsGroup(g)
    ensures forall w <- GroupWords(g) :: IsWord(w)
  {
    PrintedClauseIsWord(g[|g| - 1]);
    if |g| > 1 {
      GroupWordsAreWords(g[..|g| - 1]);
    }
  }

  lemma ParsePrintedClauses(g: Group)
    requires IsGroup(g)
    ensures ParsePart(PrintedClauses(g)) == Some(g)
  {
    forall i | 0 <= i < |g| ensures ParseClause(PrintedClauses(g)[i]) == Some(g[i]) {
      ParsePrinted(g[i]);
    }
    TraverseIs(ParseClause, PrintedClauses(g), g);
  }

  /** Printing inverts parsing: what was printed parses back to the same expression. */
  lemma ParsePrint(e: Expression)
    requires IsExpression(e)
    ensures ParseCondition(Print(e)) == Some(e)
  {
    ExpressionWordsAreWords(e);
    SplitJoin(ExpressionWords(e));
    FeedExpression(e);
    var parts := Feed([[]], ExpressionWords(e));
    forall i | 0 <= i < |e| ensures ParsePart(parts[i]) == Some(e[i]) {
      ParsePrintedClauses(e[i]);
    }
    TraverseIs(ParsePart, parts, e);
  }

  predicate AllWords(parts: seq<seq<string>>) {
    forall i, j :: 0 <= i < |parts| && 0 <= j < |parts[i]| ==> IsWord(parts[i][j])
  }

  lemma {:induction false} FeedKeepsWords(words: seq<string>)
    requires forall i :: 0 <= i < |words| ==> IsWord(words[i])
    ensures AllWords(Feed([[]], words))
  {
    if words != [] {
      FeedKeepsWords(words[..|words| - 1]);
    }
  }

  lemma {:induction false} ParsedGroupIsGroup(part: seq<string>)
    requires part != [] && forall j :: 0 <= j < |part| ==> IsWord(part[j])
    requires ParseGroup(part).Some?
    ensures IsGroup(ParseGroup(part).value)
  {
    forall j | 0 <= j < |part| ensures IsClause(ParseGroup(part).value[j]) {
      ParsedClauseIsClause(part[j]);
    }
  }

  /** Every accepted condition denotes a proper expression, and normalising it (parse,
      print, parse again) changes nothing. */
  lemma {:induction false} ParseIsStable(condition: string)
    requires ParseCondition(condition).Some?
    ensures var e := ParseCondition(condition).value;
            IsExpression(e) && ParseCondition(Print(e)) == Some(e)
  {
    var words := SplitWhitespace(condition);
    var parts := Feed([[]], words);
    var e := ParseCondition(condition).value;
    FeedKeepsWords(words);
    forall i | 0 <= i < |e| ensures IsGroup(e[i]) {
      ParsedGroupIsGroup(parts[i]);
    }
    ParsePrint(e);
  }

  // --- Evaluation ------------------------------------------------------------

  const DEFAULT_CONDITION := "default"

  predicate IsDefault(condition: Option<string>) {
    condition.None? || Trim(condition.value) == [] || ToAsciiLower(Trim(condition.value)) == DEFAULT_CONDITION
  }

  function Lookup(fields: Context, key: string): Option<Json> {
    if key in fields then Some(fields[key]) else None
  }

  const SETTINGS_PREFIX := "settings."

  /** Upstream keys win, then the explicit `settings.` prefix, then bare settings keys. */
  function Resolve(context: Context, settings: Context, key: string): Option<Json> {
    if key in context then Some(context[key])
    else if SETTINGS_PREFIX <= key then Lookup(settings, key[|SETTINGS_PREFIX|..])
    else Lookup(settings, key)
  }

  predicate ClauseMatches(c: Clause, context: Context, settings: Context) {
    match Resolve(context, settings, c.key)
    case None => false
    case Some(Null) => false
    case Some(Str(s)) => c.negate != (s == c.value)
    case Some(other) => c.negate != (other.text == c.value)
  }

  /** The evaluator: `any` group whose clauses `all` match; malformed never matches. */
  predicate Evaluate(condition: string, context: Context, settings: Context) {
    && !IsDefault(Some(condition))
    && var parsed := ParseCondition(condition);
       parsed.Some? && AnyGroup(parsed.value, context, settings)
  }

  predicate AnyGroup(e: Expression, context: Context, settings: Context) {
    e != [] && (AllClauses(e[0], context, settings) || AnyGroup(e[1..], context, settings))
  }

  predicate AllClauses(g: Group, context: Context, settings: Context) {
    g == [] || (ClauseMatches(g[0], context, settings) && AllClauses(g[1..], context, settings))
  }

  /** Whether a key has a value that a clause can be compared against. */
  predicate Present(context: Context, settings: Context, key: string) {
    var v := Resolve(context, settings, key);
    v.Some? && !v.value.Null?
  }

  lemma {:induction false} AllClausesIff(g: Group, context: Context, settings: Context)
    ensures AllClauses(g, context, settings) <==> forall c <- g :: ClauseMatches(c, context, settings)
  {
    if g != [] {
      AllClausesIff(g[1..], context, settings);
      assert forall c :: c in g <==> c == g[0] || c in g[1..];
    }
  }

  /** Disjunctive normal form: an accepted, non-default condition holds exactly when
      some group has all its clauses true. */
  lemma {:induction false} AnyGroupIff(e: Expression, context: Context, settings: Context)
    ensures AnyGroup(e, context, settings) <==>
            exists g <- e :: forall c <- g :: ClauseMatches(c, context, settings)
  {
    if e != [] {
      AllClausesIff(e[0], context, settings);
      AnyGroupIff(e[1..], context, settings);
      assert e[0] in e && forall g :: g in e <==> g == e[0] || g in e[1..];
    }
  }

  /** `=` and `!=` on the same key and value: complementary where the key is present,
      both false where it is missing or null. */
  lemma OperatorsAreComplementary(key: string, value: string, context: Context, settings: Context)
    ensures var eq := ClauseMatches(Clause(key, false, value), context, settings);
            var ne := ClauseMatches(Clause(key, true, value), context, settings);
            if Present(context, settings, key) then eq != ne else !eq && !ne
  {
  }

  /** A condition reads only the keys it names. */
  lemma {:induction false} EvaluateReadsItsKeys(condition: string, c1: Context, c2: Context, settings: Context)
    requires ParseCondition(condition).Some?
    requires forall g <- ParseCondition(condition).value :: forall c <- g ::
               Resolve(c1, settings, c.key) == Resolve(c2, settings, c.key)
    ensures Evaluate(condition, c1, settings) <==> Evaluate(condition, c2, settings)
  {
    var e := ParseCondition(condition).value;
    assert forall g <- e :: forall c <- g ::
        ClauseMatches(c, c1, settings) <==> ClauseMatches(c, c2, settings);
    hide ClauseMatches, ParseCondition, IsDefault;
    AnyGroupIff(e, c1, settings);
    AnyGroupIff(e, c2, settings);
  }
}
