/** Flow definitions, their validation, and edge activation
    (src/mission.rs:282-500). */
module Flow {
  import opened Text
  import opened Conditions

  type NodeId = string

  datatype NodeKind = Input | Agent | Human | Output

  datatype Node = Node(
    id: NodeId,
    kind: NodeKind,
    prompt: Option<string>,
    value: Option<Json>,
    backend: Option<string>,
    readOnly: bool,
    allowedTools: seq<string>)

  datatype Edge = Edge(from: NodeId, to: NodeId, condition: Option<string>)

  datatype Definition = Definition(
    nodes: seq<Node>,
    edges: seq<Edge>,
    concurrency: nat,
    retries: nat)

  function Ids(def: Definition): set<NodeId> {
    set n <- def.nodes :: n.id
  }

  function NodeOf(nodes: seq<Node>, id: NodeId): (r: Option<Node>)
    ensures r.Some? ==> r.value in nodes && r.value.id == id
    ensures r.None? ==> forall n <- nodes :: n.id != id
  {
    if nodes == [] then None
    else if nodes[0].id == id then Some(nodes[0])
    else NodeOf(nodes[1..], id)
  }

  function Sources(def: Definition, v: NodeId): set<NodeId> {
    set e <- def.edges | e.to == v :: e.from
  }

  predicate HasEdge(def: Definition, u: NodeId, v: NodeId) {
    exists e <- def.edges :: e.from == u && e.to == v
  }

  // --- Validation ------------------------------------------------------------

  predicate DistinctIds(nodes: seq<Node>) {
    forall i, j :: 0 <= i < j < |nodes| ==> nodes[i].id != nodes[j].id
  }

  predicate ValidCondition(condition: Option<string>) {
    condition.None? || IsDefault(condition) || ParseCondition(condition.value).Some?
  }

  predicate Blank(s: Option<string>) {
    s.None? || Trim(s.value) == []
  }

  predicate ValidNode(n: Node) {
    match n.kind
    case Agent => !Blank(n.prompt) && !Blank(n.backend) && (n.readOnly ==> n.allowedTools != [])
    case Input => n.value.Some?
    case Human => true
    case Output => true
  }

  /** Inputs are exactly the roots. */
  predicate RootRule(def: Definition, n: Node) {
    n.kind.Input? <==> Sources(def, n.id) == {}
  }

  /** The checks that parsing makes before the structural validation. */
  ghost predicate WellFormed(def: Definition) {
    && def.nodes != []
    && DistinctIds(def.nodes)
    && (forall e <- def.edges :: e.from in Ids(def) && e.to in Ids(def))
  }

  lemma SourcesInIds(def: Definition, v: NodeId)
    requires WellFormed(def)
    ensures Sources(def, v) <= Ids(def)
  {
  }

  lemma NodeOfKnown(def: Definition, v: NodeId)
    requires v in Ids(def)
    ensures NodeOf(def.nodes, v).Some?
  {
  }

  /** What `mission.create` accepts. Nothing here excludes cycles. */
  ghost predicate Accepted(def: Definition) {
    && WellFormed(def)
    && (forall e <- def.edges :: ValidCondition(e.condition))
    && (exists n <- def.nodes :: n.kind.Input?)
    && (forall n <- def.nodes :: ValidNode(n) && RootRule(def, n))
  }

  datatype DefinitionError =
    | NoNodes
    | DuplicateNode(id: NodeId)
    | UnknownNode(edge: Edge)
    | MalformedCondition(edge: Edge)
    | NoInput
    | InvalidNode(id: NodeId)
    | InputHasIncoming(id: NodeId)
    | NoIncoming(id: NodeId)

  /** The fault that an error names is there, and those that are looked for before it are not. */
  ghost predicate Explains(def: Definition, error: DefinitionError) {
    match error
    case NoNodes => def.nodes == []
    case DuplicateNode(id) => exists i, j :: 0 <= i < j < |def.nodes| && def.nodes[i].id == def.nodes[j].id == id
    case UnknownNode(e) => DistinctIds(def.nodes) && e in def.edges && !(e.from in Ids(def) && e.to in Ids(def))
    case MalformedCondition(e) => DistinctIds(def.nodes) && e in def.edges && !ValidCondition(e.condition)
    case NoInput => WellFormed(def) && forall n <- def.nodes :: !n.kind.Input?
    case InvalidNode(id) => WellFormed(def) && exists n <- def.nodes :: n.id == id && !ValidNode(n)
    case InputHasIncoming(id) =>
      && WellFormed(def) && (forall n <- def.nodes :: ValidNode(n))
      && exists n <- def.nodes :: n.id == id && n.kind.Input? && Sources(def, id) != {}
    case NoIncoming(id) =>
      && WellFormed(def) && (forall n <- def.nodes :: ValidNode(n))
      && exists n <- def.nodes :: n.id == id && !n.kind.Input? && Sources(def, id) == {}
  }

  ghost predicate EdgeIsSound(def: Definition, e: Edge) {
    && (exists n <- def.nodes :: n.id == e.from) && (exists n <- def.nodes :: n.id == e.to)
    && (e.condition.Some? && !IsDefault(e.condition) ==> ParseCondition(e.condition.value).Some?)
  }

  ghost predicate NodeIsSound(def: Definition, n: Node) {
    && (n.kind == Input <==> forall e <- def.edges :: e.to != n.id)
    && (n.kind == Input ==> n.value != None)
    && (n.kind == Agent ==> HasWord(n.prompt) && HasWord(n.backend))
    && (n.kind == Agent && n.readOnly ==> |n.allowedTools| > 0)
  }

  /** Acceptance, down to the characters of a prompt. */
  lemma AcceptedMeans(def: Definition)
    ensures Accepted(def) <==>
            && |def.nodes| > 0
            && (forall i, j :: 0 <= i < |def.nodes| && 0 <= j < |def.nodes| && def.nodes[i].id == def.nodes[j].id ==>
                  i == j)
            && (forall e <- def.edges :: EdgeIsSound(def, e))
            && (exists n <- def.nodes :: n.kind == Input)
            && (forall n <- def.nodes :: NodeIsSound(def, n))
  {
    hide EdgeIsSound, NodeIsSound, ValidCondition, ValidNode, RootRule, Ids;
    forall e: Edge
      ensures e.from in Ids(def) && e.to in Ids(def) && ValidCondition(e.condition) <==> EdgeIsSound(def, e)
    {
      EdgeIs(def, e);
    }
    forall n: Node ensures ValidNode(n) && RootRule(def, n) <==> NodeIsSound(def, n) {
      NodeIs(def, n);
    }
  }

  lemma EdgeIs(def: Definition, e: Edge)
    ensures e.from in Ids(def) && e.to in Ids(def) && ValidCondition(e.condition) <==> EdgeIsSound(def, e)
  {
    hide ParseCondition, IsDefault;
  }

  lemma NodeIs(def: Definition, n: Node)
    ensures ValidNode(n) && RootRule(def, n) <==> NodeIsSound(def, n)
  {
    hide Trim, HasWord;
    BlankIff(n.prompt);
    BlankIff(n.backend);
    assert forall e <- def.edges :: e.to == n.id ==> e.from in Sources(def, n.id);
  }

  lemma BlankIff(s: Option<string>)
    ensures Blank(s) <==> !HasWord(s)
  {
    hide Trim;
    if s.Some? {
      BlankIs(s.value);
    }
  }

  /** Something in it is not whitespace. */
  predicate HasWord(s: Option<string>) {
    s.Some? && exists c <- s.value :: !IsWhitespace(c)
  }

  lemma BlankIs(s: string)
    ensures Trim(s) == "" <==> forall c <- s :: IsWhitespace(c)
  {
    TrimStartIs(s);
    var t := TrimStart(s);
    if t != "" {
      TrimEndKeeps(t, t[0]);
    }
  }

  lemma {:induction false} TrimStartIs(s: string)
    ensures TrimStart(s) == "" <==> forall c <- s :: IsWhitespace(c)
    ensures TrimStart(s) != "" ==> !IsWhitespace(TrimStart(s)[0])
    ensures forall c <- TrimStart(s) :: c in s
  {
    if s != "" {
      TrimStartIs(s[1..]);
    }
  }

  lemma {:induction false} TrimEndKeeps(s: string, c: char)
    requires s != "" && s[0] == c && !IsWhitespace(c)
    ensures TrimEnd(s) != ""
  {
    if IsWhitespace(s[|s| - 1]) {
      TrimEndKeeps(s[..|s| - 1], c);
    }
  }

  /** `parse_definition`: the shape checks, then the structural ones; None means accepted. */
  method ParseDefinition(def: Definition) returns (error: Option<DefinitionError>)
    ensures error.None? <==> Accepted(def)
    ensures error.Some? ==> Explains(def, error.value)
  {
    hide ValidCondition, ValidNode, RootRule;
    error := CheckNodes(def);
    if error.None? {
      error := CheckEdges(def);
      if error.None? {
        error := ValidateDefinition(def);
      }
    }
  }

  method CheckNodes(def: Definition) returns (error: Option<DefinitionError>)
    ensures error.None? <==> def.nodes != [] && DistinctIds(def.nodes)
    ensures error.Some? ==> Explains(def, error.value)
  {
    if |def.nodes| == 0 {
      return Some(NoNodes);
    }
    var ids: set<NodeId> := {};
    for i := 0 to |def.nodes|
      invariant forall id :: id in ids <==> exists k :: 0 <= k < i && def.nodes[k].id == id
      invariant forall j, k :: 0 <= j < k < i ==> def.nodes[j].id != def.nodes[k].id
    {
      if def.nodes[i].id in ids {
        return Some(DuplicateNode(def.nodes[i].id));
      }
      ids := ids + {def.nodes[i].id};
    }
    return None;
  }

  method CheckEdges(def: Definition) returns (error: Option<DefinitionError>)
    requires DistinctIds(def.nodes)
    ensures error.None? <==>
            (forall e <- def.edges :: e.from in Ids(def) && e.to in Ids(def) && ValidCondition(e.condition))
    ensures error.Some? ==> Explains(def, error.value)
  {
    hide ValidCondition;
    var ids := Ids(def);
    for i := 0 to |def.edges|
      invariant forall k :: 0 <= k < i ==>
                  def.edges[k].from in ids && def.edges[k].to in ids && ValidCondition(def.edges[k].condition)
    {
      if def.edges[i].from !in ids || def.edges[i].to !in ids {
        return Some(UnknownNode(def.edges[i]));
      }
      if !ValidCondition(def.edges[i].condition) {
        return Some(MalformedCondition(def.edges[i]));
      }
    }
    return None;
  }

  method ValidateDefinition(def: Definition) returns (error: Option<DefinitionError>)
    requires WellFormed(def)
    ensures error.None? <==>
            (exists n <- def.nodes :: n.kind.Input?) && (forall n <- def.nodes :: ValidNode(n) && RootRule(def, n))
    ensures error.Some? ==> Explains(def, error.value)
  {
    hide ValidNode;
    if !exists n <- def.nodes :: n.kind.Input? {
      return Some(NoInput);
    }
    for i := 0 to |def.nodes|
      invariant forall k :: 0 <= k < i ==> ValidNode(def.nodes[k])
    {
      if !ValidNode(def.nodes[i]) {
        return Some(InvalidNode(def.nodes[i].id));
      }
    }
    for i := 0 to |def.nodes|
      invariant forall k :: 0 <= k < i ==> RootRule(def, def.nodes[k])
    {
      var n := def.nodes[i];
      var incoming := CountIncoming(def, n.id);
      if n.kind.Input? && incoming > 0 {
        return Some(InputHasIncoming(n.id));
      }
      if !n.kind.Input? && incoming == 0 {
        return Some(NoIncoming(n.id));
      }
    }
    return None;
  }

  method CountIncoming(def: Definition, id: NodeId) returns (count: nat)
    ensures count == 0 <==> Sources(def, id) == {}
  {
    count := 0;
    for i := 0 to |def.edges|
      invariant count == 0 <==> forall k :: 0 <= k < i ==> def.edges[k].to != id
    {
      if def.edges[i].to == id {
        count := count + 1;
      }
    }
    if count > 0 {
      var k :| 0 <= k < |def.edges| && def.edges[k].to == id;
      assert def.edges[k].from in Sources(def, id);
    }
  }

  // --- Edge activation -------------------------------------------------------

  function Decimal(n: nat): string {
    if n < 10 then [('0' as int + n) as char] else Decimal(n / 10) + [('0' as int + n % 10) as char]
  }

  function Settings(def: Definition): Context {
    map["concurrency" := Scalar(Decimal(def.concurrency)), "retries" := Scalar(Decimal(def.retries))]
  }

  /** Objects spread their members; anything else lands under `value`. */
  function OutputContext(output: Json): Context {
    if output.Object? then output.fields["output" := output]
    else map["value" := output, "output" := output]
  }

  predicate ExplicitMatch(e: Edge, output: Json, settings: Context) {
    e.condition.Some? && Evaluate(e.condition.value, OutputContext(output), settings)
  }

  /** Whether the edge at `i` fires, among all edges leaving one source: explicit edges by
      their condition, default edges exactly when no explicit sibling matched. */
  predicate Fires(siblings: seq<Edge>, i: nat, output: Json, settings: Context)
    requires i < |siblings|
  {
    if IsDefault(siblings[i].condition) then forall e <- siblings :: !ExplicitMatch(e, output, settings)
    else ExplicitMatch(siblings[i], output, settings)
  }

  /** The two scans of the source: explicit edges first, defaults only if none matched. */
  method ActivatedEdges(siblings: seq<Edge>, output: Json, settings: Context) returns (activated: seq<nat>)
    ensures forall i: nat :: i in activated <==> i < |siblings| && Fires(siblings, i, output, settings)
    ensures forall i, j :: 0 <= i < j < |activated| ==> activated[i] < activated[j]
  {
    hide Evaluate, IsDefault;
    activated := [];
    var matched := false;
    for k := 0 to |siblings|
      invariant matched <==> exists i :: 0 <= i < k && ExplicitMatch(siblings[i], output, settings)
      invariant forall i: nat :: i in activated <==>
                  i < k && !IsDefault(siblings[i].condition) && ExplicitMatch(siblings[i], output, settings)
      invariant forall i, j :: 0 <= i < j < |activated| ==> activated[i] < activated[j]
      invariant activated != [] ==> matched
    {
      DefaultNeverMatches(siblings[k], output, settings);
      if !IsDefault(siblings[k].condition) && ExplicitMatch(siblings[k], output, settings) {
        assert forall i :: 0 <= i < |activated| ==> activated[i] in activated;
        activated := activated + [k];
        matched := true;
      }
    }
    if !matched {
      for k := 0 to |siblings|
        invariant forall i: nat :: i in activated <==> i < k && IsDefault(siblings[i].condition)
        invariant forall i, j :: 0 <= i < j < |activated| ==> activated[i] < activated[j]
      {
        if IsDefault(siblings[k].condition) {
          assert forall i :: 0 <= i < |activated| ==> activated[i] in activated;
          activated := activated + [k];
        }
      }
    }
  }

  lemma DefaultNeverMatches(e: Edge, output: Json, settings: Context)
    ensures IsDefault(e.condition) ==> !ExplicitMatch(e, output, settings)
  {
    hide ParseCondition, AnyGroup;
  }

  predicate EdgeFires(def: Definition, e: Edge, output: Json) {
    if IsDefault(e.condition)
    then forall x <- def.edges :: x.from == e.from ==> !ExplicitMatch(x, output, Settings(def))
    else ExplicitMatch(e, output, Settings(def))
  }

  /** Some edge from `u` to `v` fires on `u`'s output. */
  predicate Activates(def: Definition, u: NodeId, v: NodeId, output: Json) {
    exists e <- def.edges :: e.from == u && e.to == v && EdgeFires(def, e, output)
  }

  function EdgesFrom(edges: seq<Edge>, u: NodeId): (r: seq<Edge>)
    ensures forall e :: e in r <==> e in edges && e.from == u
  {
    if edges == [] then []
    else if edges[0].from == u then [edges[0]] + EdgesFrom(edges[1..], u)
    else EdgesFrom(edges[1..], u)
  }

  /** The list-of-siblings view and the whole-definition view agree. */
  lemma FiresIffEdgeFires(def: Definition, u: NodeId, i: nat, output: Json)
    requires i < |EdgesFrom(def.edges, u)|
    ensures Fires(EdgesFrom(def.edges, u), i, output, Settings(def)) <==>
            EdgeFires(def, EdgesFrom(def.edges, u)[i], output)
  {
    hide ExplicitMatch, IsDefault;
    assert EdgesFrom(def.edges, u)[i] in EdgesFrom(def.edges, u);
  }

  /** Whether any activated sibling leads to `v` is exactly `Activates`. */
  method AnyActivatedTo(def: Definition, u: NodeId, v: NodeId, output: Json) returns (matched: bool)
    ensures matched <==> Activates(def, u, v, output)
  {
    hide ExplicitMatch, IsDefault, EdgeFires, Fires;
    var siblings := EdgesFrom(def.edges, u);
    var activated := ActivatedEdges(siblings, output, Settings(def));
    matched := exists i <- activated :: siblings[i].to == v;
    forall i: nat | i < |siblings|
      ensures i in activated <==> EdgeFires(def, siblings[i], output)
    {
      FiresIffEdgeFires(def, u, i, output);
    }
    if Activates(def, u, v, output) {
      var e :| e in def.edges && e.from == u && e.to == v && EdgeFires(def, e, output);
      assert e in siblings;
      var i :| 0 <= i < |siblings| && siblings[i] == e;
      assert i in activated;
    }
    if matched {
      var i :| i in activated && siblings[i].to == v;
      assert siblings[i] in siblings;
    }
  }

  /** Fallback: a succeeded source with at least one edge and no explicit match fires all
      its default edges; with a match, none of them. */
  lemma DefaultIsFallback(def: Definition, e: Edge, output: Json)
    requires e in def.edges && IsDefault(e.condition)
    ensures EdgeFires(def, e, output) <==>
            !exists x <- def.edges :: x.from == e.from && !IsDefault(x.condition) && EdgeFires(def, x, output)
  {
    hide ExplicitMatch, IsDefault;
    forall x | x in def.edges && IsDefault(x.condition) ensures !ExplicitMatch(x, output, Settings(def)) {
      DefaultNeverMatches(x, output, Settings(def));
    }
  }
}
