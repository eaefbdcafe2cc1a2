/** Reachability, cycles and topological order of a flow's edges. */
module Graph {
  import opened Flow

  ghost predicate IsPath(def: Definition, p: seq<NodeId>) {
    p != [] && forall i :: 0 <= i < |p| - 1 ==> HasEdge(def, p[i], p[i + 1])
  }

  ghost predicate PathBetween(def: Definition, p: seq<NodeId>, u: NodeId, v: NodeId) {
    IsPath(def, p) && p[0] == u && p[|p| - 1] == v
  }

  /** `v` is `u` or downstream of it. */
  ghost predicate Reaches(def: Definition, u: NodeId, v: NodeId) {
    exists p :: PathBetween(def, p, u, v)
  }

  ghost predicate IsCycle(def: Definition, p: seq<NodeId>) {
    |p| >= 2 && IsPath(def, p) && p[0] == p[|p| - 1]
  }

  /** Every member of `zone` has a source inside `zone`: what lies on or downstream of cycles. */
  ghost predicate Sustained(def: Definition, zone: set<NodeId>) {
    forall v {:trigger HasSourceIn(def, zone, v)} :: v in zone ==> HasSourceIn(def, zone, v)
  }

  ghost predicate HasSourceIn(def: Definition, zone: set<NodeId>, v: NodeId) {
    exists u <- zone :: HasEdge(def, u, v)
  }

  ghost predicate Acyclic(def: Definition) {
    forall zone: set<NodeId> :: Sustained(def, zone) ==> zone == {}
  }

  lemma HasEdgeIffSource(def: Definition, u: NodeId, v: NodeId)
    ensures HasEdge(def, u, v) <==> u in Sources(def, v)
  {
  }

  // --- Reachability ----------------------------------------------------------

  lemma ReachesSelf(def: Definition, u: NodeId)
    ensures Reaches(def, u, u)
  {
    assert PathBetween(def, [u], u, u);
  }

  lemma ReachesStep(def: Definition, u: NodeId, v: NodeId, w: NodeId)
    requires Reaches(def, u, v) && HasEdge(def, v, w)
    ensures Reaches(def, u, w)
  {
    var p :| PathBetween(def, p, u, v);
    var q := p + [w];
    forall i | 0 <= i < |q| - 1 ensures HasEdge(def, q[i], q[i + 1]) {
      if i < |p| - 1 { assert HasEdge(def, p[i], p[i + 1]); }
    }
    assert PathBetween(def, q, u, w);
  }

  ghost predicate ClosedUnderEdges(def: Definition, s: set<NodeId>) {
    forall e <- def.edges :: e.from in s ==> e.to in s
  }

  /** A set that contains `root` and is closed under edges contains all that `root` reaches. */
  lemma {:induction false} ClosedContainsPath(def: Definition, s: set<NodeId>, p: seq<NodeId>)
    requires IsPath(def, p) && p[0] in s
    requires ClosedUnderEdges(def, s)
    ensures p[|p| - 1] in s
    decreases |p|
  {
    if |p| > 1 {
      var q := p[..|p| - 1];
      forall i | 0 <= i < |q| - 1 ensures HasEdge(def, q[i], q[i + 1]) {
        assert HasEdge(def, p[i], p[i + 1]);
      }
      ClosedContainsPath(def, s, q);
      assert HasEdge(def, p[|p| - 2], p[|p| - 1]);
    }
  }

  function Targets(edges: seq<Edge>): set<NodeId> {
    set e <- edges :: e.to
  }

  /** The branch closure of an exclusion, as the source grows it: sweep the edges until a
      sweep adds nothing. It is exactly the set of nodes reachable from `root`. */
  method Downstream(def: Definition, root: NodeId) returns (excluded: set<NodeId>)
    ensures forall v :: v in excluded <==> Reaches(def, root, v)
  {
    excluded := {root};
    ReachesSelf(def, root);
    var grew := true;
    while grew
      invariant root in excluded && excluded <= {root} + Targets(def.edges)
      invariant forall v <- excluded :: Reaches(def, root, v)
      invariant !grew ==> ClosedUnderEdges(def, excluded)
      decreases {root} + Targets(def.edges) - excluded, grew
    {
      grew := false;
      ghost var before := excluded;
      for i := 0 to |def.edges|
        invariant before <= excluded <= {root} + Targets(def.edges)
        invariant forall v <- excluded :: Reaches(def, root, v)
        invariant grew <==> before != excluded
        invariant !grew ==> forall k :: 0 <= k < i && def.edges[k].from in excluded ==> def.edges[k].to in excluded
      {
        var e := def.edges[i];
        if e.from in excluded && e.to !in excluded {
          assert e.to in Targets(def.edges);
          assert HasEdge(def, e.from, e.to);
          ReachesStep(def, root, e.from, e.to);
          excluded := excluded + {e.to};
          grew := true;
        }
      }
    }
    forall v | Reaches(def, root, v) ensures v in excluded {
      var p :| PathBetween(def, p, root, v);
      ClosedContainsPath(def, excluded, p);
    }
  }

  // --- Cycles ----------------------------------------------------------------

  lemma SourceInZone(def: Definition, zone: set<NodeId>, v: NodeId) returns (u: NodeId)
    requires Sustained(def, zone) && v in zone
    ensures u in zone && HasEdge(def, u, v)
  {
    assert HasSourceIn(def, zone, v);
    u :| u in zone && HasEdge(def, u, v);
  }

  /** Walks `n` edges backwards from `v` without leaving a sustained zone. */
  lemma {:induction false} WalkBack(def: Definition, zone: set<NodeId>, v: NodeId, n: nat) returns (p: seq<NodeId>)
    requires Sustained(def, zone) && v in zone
    ensures |p| == n + 1 && IsPath(def, p) && p[n] == v
    ensures forall i :: 0 <= i < |p| ==> p[i] in zone
    decreases n
  {
    hide Sustained, HasEdge;
    if n == 0 {
      p := [v];
    } else {
      var u := SourceInZone(def, zone, v);
      var q := WalkBack(def, zone, u, n - 1);
      p := q + [v];
      forall i | 0 <= i < |p| - 1 ensures HasEdge(def, p[i], p[i + 1]) {
        if i < |q| - 1 { assert HasEdge(def, q[i], q[i + 1]); }
      }
    }
  }

  /** More places than members: some member occurs twice. */
  lemma {:induction false} Pigeonhole(p: seq<NodeId>, zone: set<NodeId>) returns (i: nat, j: nat)
    requires forall k :: 0 <= k < |p| ==> p[k] in zone
    requires |p| > |zone|
    ensures i < j < |p| && p[i] == p[j]
    decreases |p|
  {
    var last := |p| - 1;
    if k: nat :| k < last && p[k] == p[last] {
      i, j := k, last;
    } else {
      i, j := Pigeonhole(p[..last], zone - {p[last]});
    }
  }

  lemma CycleIsSustained(def: Definition, p: seq<NodeId>) returns (zone: set<NodeId>)
    requires IsCycle(def, p)
    ensures Sustained(def, zone) && zone != {}
  {
    hide HasEdge;
    zone := set v <- p;
    assert p[0] in zone;
    forall v | v in zone ensures HasSourceIn(def, zone, v) {
      var j :| 0 <= j < |p| && p[j] == v;
      var i := if j == 0 then |p| - 2 else j - 1;
      assert HasEdge(def, p[i], p[i + 1]);
      assert p[i] in zone;
    }
  }

  lemma SustainedHasCycle(def: Definition, zone: set<NodeId>) returns (q: seq<NodeId>)
    requires Sustained(def, zone) && zone != {}
    ensures IsCycle(def, q)
  {
    hide Sustained, HasEdge;
    var v :| v in zone;
    var p := WalkBack(def, zone, v, |zone|);
    var i, j := Pigeonhole(p, zone);
    q := p[i..j + 1];
    forall k | 0 <= k < |q| - 1 ensures HasEdge(def, q[k], q[k + 1]) {
      assert HasEdge(def, p[i + k], p[i + k + 1]);
    }
  }

  /** The zone definition of acyclicity is the usual one: no path leads back to its start. */
  lemma AcyclicIffNoCycle(def: Definition)
    ensures Acyclic(def) <==> !exists p :: IsCycle(def, p)
  {
    hide Sustained, IsPath;
    if p :| IsCycle(def, p) {
      var zone := CycleIsSustained(def, p);
    }
    if !Acyclic(def) {
      var zone: set<NodeId> :| Sustained(def, zone) && zone != {};
      var q := SustainedHasCycle(def, zone);
    }
  }

  // --- Topological order -----------------------------------------------------

  ghost predicate Distinct(order: seq<NodeId>) {
    forall i, j :: 0 <= i < j < |order| ==> order[i] != order[j]
  }

  /** Lists each node of the flow once. */
  ghost predicate IsEnumeration(def: Definition, order: seq<NodeId>) {
    Distinct(order) && (set v <- order) == Ids(def)
  }

  ghost predicate SourcesFirst(def: Definition, order: seq<NodeId>) {
    forall i :: 0 <= i < |order| ==> Sources(def, order[i]) <= set u <- order[..i]
  }

  ghost predicate IsTopological(def: Definition, order: seq<NodeId>) {
    IsEnumeration(def, order) && SourcesFirst(def, order)
  }

  lemma Minimal(def: Definition, rest: set<NodeId>) returns (v: NodeId)
    requires Acyclic(def) && rest != {}
    ensures v in rest && forall u <- rest :: !HasEdge(def, u, v)
  {
    assert !Sustained(def, rest);
    v :| v in rest && forall u <- rest :: !HasEdge(def, u, v);
  }

  lemma {:induction false} ExtendOrder(def: Definition, done: seq<NodeId>, rest: set<NodeId>)
    returns (order: seq<NodeId>)
    requires WellFormed(def) && Acyclic(def)
    requires Distinct(done) && SourcesFirst(def, done)
    requires (set v <- done) + rest == Ids(def) && (set v <- done) !! rest
    ensures IsTopological(def, order)
    decreases rest
  {
    if rest == {} {
      order := done;
    } else {
      var v := Minimal(def, rest);
      forall u | u in Sources(def, v) ensures u in done {
        HasEdgeIffSource(def, u, v);
        assert u in Ids(def);
      }
      hide Sources, HasEdge, Acyclic;
      SourcesFirstExtends(def, done, v);
      MembersExtend(done, rest, v);
      hide *;
      order := ExtendOrder(def, done + [v], rest - {v});
    }
  }

  lemma MembersExtend(done: seq<NodeId>, rest: set<NodeId>, v: NodeId)
    requires Distinct(done) && (set x <- done) !! rest && v in rest
    ensures Distinct(done + [v])
    ensures (set x <- done + [v]) + (rest - {v}) == (set x <- done) + rest
    ensures (set x <- done + [v]) !! (rest - {v})
  {
    assert (set x <- done + [v]) == (set x <- done) + {v};
    assert forall i :: 0 <= i < |done| ==> done[i] in (set x <- done);
  }

  lemma SourcesFirstExtends(def: Definition, done: seq<NodeId>, v: NodeId)
    requires SourcesFirst(def, done) && forall u :: u in Sources(def, v) ==> u in done
    ensures SourcesFirst(def, done + [v])
  {
    hide Sources;
    var next := done + [v];
    forall i | 0 <= i < |next| ensures Sources(def, next[i]) <= set u <- next[..i] {
      assert next[..i] == done[..i];
      assert i == |done| ==> done[..i] == done;
    }
  }

  lemma ZoneInIds(def: Definition, zone: set<NodeId>)
    requires WellFormed(def) && Sustained(def, zone)
    ensures zone <= Ids(def)
  {
    forall v | v in zone ensures v in Ids(def) {
      var u := SourceInZone(def, zone, v);
    }
  }

  lemma AcyclicIffTopological(def: Definition)
    requires WellFormed(def)
    ensures Acyclic(def) <==> exists order :: IsTopological(def, order)
  {
    if Acyclic(def) {
      var order := ExtendOrder(def, [], Ids(def));
    }
    if order :| IsTopological(def, order) {
      forall zone: set<NodeId> | Sustained(def, zone) ensures zone == {} {
        NoZoneMember(def, order, zone, |order|);
        ZoneInIds(def, zone);
        assert forall v <- Ids(def) :: v in order && v !in zone;
      }
    }
  }

  lemma {:induction false} NoZoneMember(def: Definition, order: seq<NodeId>, zone: set<NodeId>, n: nat)
    requires SourcesFirst(def, order) && Sustained(def, zone) && n <= |order|
    ensures forall i :: 0 <= i < n ==> order[i] !in zone
  {
    hide Sustained;
    if n > 0 {
      NoZoneMember(def, order, zone, n - 1);
      assert forall u <- Sources(def, order[n - 1]) :: u in order[..n - 1] && u !in zone;
      if order[n - 1] in zone {
        var u := SourceInZone(def, zone, order[n - 1]);
        HasEdgeIffSource(def, u, order[n - 1]);
      }
    }
  }
}
