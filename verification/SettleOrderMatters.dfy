/** A flow whose outcome depends on the order in which its edges are listed: an output node joins two
    inputs, and the edge behind it asks for the text of the joined object. */
module SettleOrderMatters {
  import opened Text
  import opened Conditions
  import opened ConditionMeaning
  import opened JsonText
  import opened Flow
  import opened Graph
  import opened Convergence
  import opened SettleOrder

  const JOINED := "{\"a\":1,\"b\":2}"

  const CONDITION := "output=" + JOINED

  const A: NodeId := "a"
  const B: NodeId := "b"
  const O: NodeId := "o"
  const H: NodeId := "h"

  lemma FourNames()
    ensures A != B && A != O && A != H && B != O && B != H && O != H
  {
    assert A[0] == 'a' && B[0] == 'b' && O[0] == 'o' && H[0] == 'h';
  }

  function InputNode(id: NodeId, text: string): Node {
    Node(id, Input, None, Some(Scalar(text)), None, false, [])
  }

  function PlainNode(id: NodeId, kind: NodeKind): Node {
    Node(id, kind, None, None, None, false, [])
  }

  /** Inputs `a` and `b`, both into output `o`, `first` listed first, and `o` into human `h`. */
  function Fork(first: NodeId, second: NodeId): Definition {
    Definition(
      [InputNode(A, "1"), InputNode(B, "2"), PlainNode(O, Output), PlainNode(H, Human)],
      [Edge(first, O, None), Edge(second, O, None), Edge(O, H, Some(CONDITION))],
      4, 0)
  }

  const ROWS: seq<NodeId> := [A, B, H, O]

  function Start(): Tasks {
    var t := Task(Queued, 1, None, None);
    map[A := t, B := t, H := t, O := t]
  }

  function Value(id: NodeId): Json {
    Scalar(if id == A then "1" else "2")
  }

  function Joined(first: NodeId, second: NodeId): Json {
    ObjectOf([Member(first, Value(first)), Member(second, Value(second))])
  }

  function Outcome(first: NodeId, second: NodeId): Tasks {
    map[A := Task(Succeeded, 1, Some(Value(A)), None),
        B := Task(Succeeded, 1, Some(Value(B)), None),
        O := Task(Succeeded, 1, Some(Joined(first, second)), None),
        H := Task(if first == A then WaitingHuman else Cancelled, 1, None, None)]
  }

  predicate Listing(first: NodeId, second: NodeId) {
    (first == A && second == B) || (first == B && second == A)
  }

  // --- The condition ----------------------------------------------------------

  /** `output=` followed by a word asks for exactly that text. */
  lemma OutputIsText(word: string, output: Json, settings: Context)
    requires IsWord(word) && FindPair(word, '!', '=').None? && output.Object?
    ensures !IsDefault(Some("output=" + word)) && ParseCondition("output=" + word).Some?
    ensures Evaluate("output=" + word, OutputContext(output), settings) <==> output.text == word
  {
    hide IsWord, FindPair, IsDefault, ParseCondition, Evaluate;
    var c := Clause("output", false, word);
    OutputParses(word);
    ClauseMeans(c, OutputContext(output), settings);
    assert PrintClause(c) == "output=" + word;
  }

  lemma OutputParses(word: string)
    requires IsWord(word) && FindPair(word, '!', '=').None?
    ensures IsClause(Clause("output", false, word)) && !IsDefault(Some("output=" + word))
    ensures ParseCondition("output=" + word) == Some([[Clause("output", false, word)]])
  {
    hide IsWord, FindPair, ParseCondition, IsDefault;
    var c := Clause("output", false, word);
    OutputIsKey();
    assert PrintClause(c) == "output=" + word;
    OneClausePrints(c);
    hide Print, PrintClause, IsClause;
    ParsePrint([[c]]);
    NotDefault([[c]]);
  }

  lemma OutputIsKey()
    ensures IsKey("output")
  {
  }

  lemma ClosedLetter(c: char)
    requires c == 'a' || c == 'b'
    ensures Closed([c]) == [c, '"']
  {
    assert [c][1..] == [];
    assert Escaped([c]) == [c] + "";
  }

  lemma TwoMembers(x: Member, y: Member)
    ensures Render([x, y]) ==
            "{" + ("\"" + (Closed(x.key) + (":" + (TextOf(x.value) +
            (",\"" + (Closed(y.key) + (":" + (TextOf(y.value) + "}"))))))))
  {
    hide Closed, TextOf;
    assert [x, y][1..] == [y] && [y][1..] == [];
    assert Members([], false) == "}";
    assert Members([y], false) == ",\"" + (Closed(y.key) + (":" + (TextOf(y.value) + "}")));
    assert Members([x, y], true) == "\"" + (Closed(x.key) + (":" + (TextOf(x.value) + Members([y], false))));
  }

  lemma JoinedText()
    ensures Joined(A, B).text == JOINED && Joined(B, A).text != JOINED
    ensures IsWord(JOINED) && FindPair(JOINED, '!', '=').None?
  {
    hide Closed, Render, Members, IsWord, FindPair;
    assert A == ['a'] && B == ['b'];
    ClosedLetter('a');
    ClosedLetter('b');
    TwoMembers(Member(A, Value(A)), Member(B, Value(B)));
    TwoMembers(Member(B, Value(B)), Member(A, Value(A)));
    assert TextOf(Value(A)) == "1" && TextOf(Value(B)) == "2";
    assert Joined(B, A).text[2] == 'b';
    JoinedPieces();
    JoinedIsWord();
  }

  lemma JoinedPieces()
    ensures "{" + ("\"" + (['a', '"'] + (":" + ("1" + (",\"" + (['b', '"'] + (":" + ("2" + "}")))))))) == JOINED
    ensures JOINED[2] == 'a'
  {
  }

  lemma JoinedIsWord()
    ensures IsWord(JOINED) && FindPair(JOINED, '!', '=').None?
  {
    hide FindPair;
    assert '!' !in JOINED;
  }

  // --- The two outcomes ----------------------------------------------------------

  lemma ForkNodes(first: NodeId, second: NodeId)
    requires Listing(first, second)
    ensures var def := Fork(first, second);
            && DistinctIds(def.nodes) && Ids(def) == {A, B, O, H}
            && NodeOf(def.nodes, A) == Some(InputNode(A, "1")) && NodeOf(def.nodes, B) == Some(InputNode(B, "2"))
            && NodeOf(def.nodes, O) == Some(PlainNode(O, Output)) && NodeOf(def.nodes, H) == Some(PlainNode(H, Human))
  {
    hide A, B, O, H;
    FourNames();
    var nodes := Fork(first, second).nodes;
    assert nodes[0].id == A && nodes[1].id == B && nodes[2].id == O && nodes[3].id == H;
    assert forall v :: v in Ids(Fork(first, second)) <==> v == A || v == B || v == O || v == H;
  }

  lemma ForkSources(first: NodeId, second: NodeId)
    requires Listing(first, second)
    ensures var def := Fork(first, second);
            && Sources(def, A) == {} && Sources(def, B) == {}
            && Sources(def, O) == {A, B} && Sources(def, H) == {O}
  {
    hide A, B, O, H, CONDITION;
    FourNames();
    var def := Fork(first, second);
    assert def.edges[0].from == first && def.edges[1].from == second && def.edges[2].from == O;
    assert def.edges[0] in def.edges && def.edges[1] in def.edges && def.edges[2] in def.edges;
  }

  lemma ForkIsAccepted(first: NodeId, second: NodeId)
    requires Listing(first, second)
    ensures Accepted(Fork(first, second)) && Acyclic(Fork(first, second))
  {
    hide A, B, O, H, CONDITION, NodeOf, DistinctIds, Sources, Acyclic, ParseCondition, ValidCondition, Ids;
    FourNames();
    var def := Fork(first, second);
    ForkNodes(first, second);
    ForkSources(first, second);
    ForkConditions(first, second);
    forall e | e in def.edges ensures e.from in Ids(def) && e.to in Ids(def) {
    }
    assert def.nodes[0] in def.nodes;
    ForkIsTopological(first, second);
    AcyclicIffTopological(def);
  }

  lemma ForkConditions(first: NodeId, second: NodeId)
    ensures forall e <- Fork(first, second).edges :: ValidCondition(e.condition)
  {
    hide JOINED, ParseCondition, IsWord, FindPair;
    JoinedText();
    OutputParses(JOINED);
  }

  lemma ForkIsTopological(first: NodeId, second: NodeId)
    requires Listing(first, second)
    ensures IsTopological(Fork(first, second), [A, B, O, H])
  {
    hide A, B, O, H, Sources, Ids, Fork;
    FourNames();
    var order: seq<NodeId> := [A, B, O, H];
    ForkNodes(first, second);
    ForkSources(first, second);
    assert order[..2] == [A, B] && order[..3] == [A, B, O];
    assert A in order[..2] && B in order[..2] && O in order[..3];
    assert (set v <- order) == {A, B, O, H};
  }

  lemma ForkGathers(first: NodeId, second: NodeId)
    requires Listing(first, second)
    ensures Upstream(Fork(first, second), Outcome(first, second), O) == Joined(first, second)
  {
    hide A, B, O, H, CONDITION, ObjectOf, Insert, Value;
    FourNames();
    var env := Outcome(first, second);
    assert Offers(env, first) && env[first].output == Some(Value(first));
    assert Offers(env, second) && env[second].output == Some(Value(second));
    hide Outcome, Offers;
    GatherTwo(first, second, Some(CONDITION), env);
  }

  lemma GatherTwo(first: NodeId, second: NodeId, condition: Option<string>, env: Tasks)
    requires first != second && O != H && Offers(env, first) && Offers(env, second)
    ensures Gathered([Edge(first, O, None), Edge(second, O, None), Edge(O, H, condition)], env, O) ==
            [Member(first, env[first].output.value), Member(second, env[second].output.value)]
  {
    hide A, B, O, H, Insert;
    var e, f, g := Edge(first, O, None), Edge(second, O, None), Edge(O, H, condition);
    var x, y := Member(first, env[first].output.value), Member(second, env[second].output.value);
    InsertNew([], x);
    InsertNew([x], y);
    assert [e][..0] == [] && [e, f][..1] == [e] && [e, f, g][..2] == [e, f];
    assert Gathered([e], env, O) == [] + [x] == [x];
    assert Gathered([e, f], env, O) == [x] + [y] == [x, y];
  }

  lemma InputFires(first: NodeId, second: NodeId)
    requires Listing(first, second)
    ensures Fired(Fork(first, second), Outcome(first, second), A, O)
  {
    hide A, B, O, H, CONDITION, ExplicitMatch, IsDefault, Joined;
    FourNames();
    var def := Fork(first, second);
    assert def.edges[0].from == first && def.edges[1].from == second;
    var i := if first == A then 0 else 1;
    assert def.edges[i] in def.edges;
    NoCondition(def, Value(A));
  }

  lemma NoCondition(def: Definition, output: Json)
    ensures forall e: Edge :: e.condition == None ==> IsDefault(e.condition) && !ExplicitMatch(e, output, Settings(def))
  {
    hide Trim;
  }

  lemma OutputFires(first: NodeId, second: NodeId)
    requires Listing(first, second)
    ensures Fired(Fork(first, second), Outcome(first, second), O, H) <==> first == A
  {
    hide A, B, O, H, CONDITION, ExplicitMatch, IsDefault, Joined;
    FourNames();
    var def := Fork(first, second);
    assert def.edges[2] == Edge(O, H, Some(CONDITION)) && def.edges[2] in def.edges;
    ConditionMatches(first, second);
  }

  lemma ConditionMatches(first: NodeId, second: NodeId)
    requires Listing(first, second)
    ensures var e, s := Edge(O, H, Some(CONDITION)), Settings(Fork(first, second));
            !IsDefault(e.condition) && (ExplicitMatch(e, Joined(first, second), s) <==> first == A)
  {
    hide JOINED, Evaluate, IsDefault, OutputContext, IsWord, FindPair, ParseCondition, Render, FieldsOf, A, B;
    FourNames();
    JoinedText();
    OutputIsText(JOINED, Joined(first, second), Settings(Fork(first, second)));
  }

  lemma InputVerdict(first: NodeId, second: NodeId, v: NodeId)
    requires Listing(first, second) && (v == A || v == B)
    ensures var env := Outcome(first, second); env[v] == Verdict(Fork(first, second), env, env, Start()[v], v)
  {
    hide A, B, O, H, Fork, Sources, NodeOf, Fired, Upstream, Joined;
    FourNames();
    ForkNodes(first, second);
    ForkSources(first, second);
  }

  lemma OutputVerdict(first: NodeId, second: NodeId)
    requires Listing(first, second)
    ensures var env := Outcome(first, second); env[O] == Verdict(Fork(first, second), env, env, Start()[O], O)
  {
    hide A, B, O, H, Fork, Sources, NodeOf, Fired, Upstream, Joined;
    FourNames();
    ForkNodes(first, second);
    ForkSources(first, second);
    ForkGathers(first, second);
    InputFires(first, second);
    assert A in Sources(Fork(first, second), O);
  }

  lemma HumanVerdict(first: NodeId, second: NodeId)
    requires Listing(first, second)
    ensures var env := Outcome(first, second); env[H] == Verdict(Fork(first, second), env, env, Start()[H], H)
  {
    hide A, B, O, H, Fork, Sources, NodeOf, Fired, Upstream, Joined;
    FourNames();
    ForkNodes(first, second);
    ForkSources(first, second);
    OutputFires(first, second);
    assert O in Sources(Fork(first, second), H);
  }

  lemma ForkSolution(first: NodeId, second: NodeId)
    requires Listing(first, second)
    ensures Solution(Fork(first, second), Start(), Outcome(first, second))
  {
    hide A, B, O, H, Fork, Verdict, Joined;
    FourNames();
    InputVerdict(first, second, A);
    InputVerdict(first, second, B);
    OutputVerdict(first, second);
    HumanVerdict(first, second);
  }

  lemma ForkIsWellFormed(first: NodeId, second: NodeId)
    requires Listing(first, second)
    ensures WellFormed(Fork(first, second)) && Acyclic(Fork(first, second)) && MaxRunning(Fork(first, second)) == 4
  {
    hide WellFormed, Acyclic;
    ForkIsAccepted(first, second);
  }

  lemma StartFacts(first: NodeId, second: NodeId)
    ensures Covers(ROWS, Start()) && Start().Keys == {A, B, O, H}
    ensures |RunningSet(Start())| == 0 && |RunningSet(Outcome(first, second))| == 0
  {
    hide A, B, O, H, Joined;
    FourNames();
    assert ROWS[0] == A && ROWS[1] == B && ROWS[2] == H && ROWS[3] == O;
    assert (set v <- ROWS) == {A, B, H, O} == Start().Keys;
    assert RunningSet(Start()) == {} && RunningSet(Outcome(first, second)) == {};
  }

  lemma ForkSettles(first: NodeId, second: NodeId)
    requires Listing(first, second)
    ensures WellFormed(Fork(first, second)) && Covers(ROWS, Start())
    ensures Settle(Fork(first, second), ROWS, Start()).tasks == Outcome(first, second)
  {
    hide *;
    ForkIsWellFormed(first, second);
    ForkNodes(first, second);
    ForkSolution(first, second);
    StartFacts(first, second);
    SettleIsSolution(Fork(first, second), ROWS, Start(), Outcome(first, second));
  }

  /** Both listings are accepted, the budget never binds, and all that differs is the order of two
      edges: in one the human is asked, in the other it is cut off. */
  lemma EdgeOrderMatters()
    ensures var x, y := Fork(A, B), Fork(B, A);
            && Accepted(x) && Accepted(y) && SameFlow(x, y) && Covers(ROWS, Start())
            && Settle(x, ROWS, Start()).tasks[H].status.WaitingHuman?
            && Settle(y, ROWS, Start()).tasks[H].status.Cancelled?
  {
    hide A, B, O, H, Settle, Accepted, WellFormed, CONDITION, Covers;
    FourNames();
    ForkIsAccepted(A, B);
    ForkIsAccepted(B, A);
    ForkSettles(A, B);
    ForkSettles(B, A);
    var x, y := Fork(A, B), Fork(B, A);
    assert y.edges[0] == x.edges[1] && y.edges[1] == x.edges[0] && y.edges[2] == x.edges[2];
  }
}
