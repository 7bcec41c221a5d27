/** The dependency graph as a value, with the theory of paths its operations rest on. */
module GraphModel {
  import opened Collections
  import opened Types
  import opened Sorting

  /** Largest number of nodes a graph may hold before another `add_node` throws. */
  const MAX_NODES: nat := 0x10_0000

  datatype Graph = Graph(nodes: set<Id>, outs: map<Id, seq<DependencyRef>>, ins: map<Id, seq<Id>>)

  const EMPTY := Graph({}, map[], map[])

  function Targets(refs: seq<DependencyRef>): (r: seq<Id>)
    ensures |r| == |refs|
    ensures forall i :: 0 <= i < |refs| ==> r[i] == refs[i].artifact
  {
    seq(|refs|, i requires 0 <= i < |refs| => refs[i].artifact)
  }

  /** Edges leaving `id`, in insertion order; none when `id` is not a node. */
  function Direct(g: Graph, id: Id): seq<DependencyRef> {
    if id in g.outs then g.outs[id] else []
  }

  ghost predicate Edge(g: Graph, a: Id, b: Id) {
    b in Targets(Direct(g, a))
  }

  // ---- paths ----------------------------------------------------------------------------

  ghost predicate IsPath(g: Graph, p: seq<Id>) {
    |p| > 0 && forall i :: 0 <= i < |p| - 1 ==> Edge(g, p[i], p[i + 1])
  }

  ghost predicate Joins(g: Graph, p: seq<Id>, a: Id, b: Id) {
    IsPath(g, p) && p[0] == a && p[|p| - 1] == b
  }

  /** `b` can be reached from `a` along zero or more edges. */
  ghost predicate Reaches(g: Graph, a: Id, b: Id) {
    exists p :: Joins(g, p, a, b)
  }

  /** `a` depends on `b`, directly or through other nodes: one or more edges. */
  ghost predicate DependsOn(g: Graph, a: Id, b: Id) {
    exists c :: Through(g, a, c, b)
  }

  ghost predicate Through(g: Graph, a: Id, c: Id, b: Id) {
    Edge(g, a, c) && Reaches(g, c, b)
  }

  ghost predicate Acyclic(g: Graph) {
    forall a :: !DependsOn(g, a, a)
  }

  /** What every graph built by the operations satisfies. */
  ghost predicate Valid(g: Graph) {
    && g.outs.Keys == g.nodes
    && g.ins.Keys == g.nodes
    && (forall a, b :: Edge(g, a, b) ==> b in g.nodes)
    && (forall a :: NoRepeats(g, a))
    && (forall b :: InverseAt(g, b))
    && Acyclic(g)
  }

  ghost predicate NoRepeats(g: Graph, a: Id) {
    a in g.outs && a in g.ins ==> Distinct(Targets(g.outs[a])) && Distinct(g.ins[a])
  }

  /** The reverse list of `b` names exactly the sources of the edges into `b`. */
  ghost predicate InverseAt(g: Graph, b: Id) {
    b in g.ins ==> forall a :: a in g.ins[b] <==> Edge(g, a, b)
  }

  lemma ReachesSelf(g: Graph, a: Id)
    ensures Reaches(g, a, a)
  {
    assert Joins(g, [a], a, a);
  }

  lemma EdgeThenReaches(g: Graph, a: Id, b: Id, c: Id)
    requires Edge(g, a, b) && Reaches(g, b, c)
    ensures Reaches(g, a, c)
  {
    var p :| Joins(g, p, b, c);
    var q := [a] + p;
    forall i | 0 <= i < |q| - 1 ensures Edge(g, q[i], q[i + 1]) {
      if i > 0 { assert q[i] == p[i - 1] && q[i + 1] == p[i]; }
    }
    assert Joins(g, q, a, c);
  }

  lemma ReachesTransitive(g: Graph, a: Id, b: Id, c: Id)
    requires Reaches(g, a, b) && Reaches(g, b, c)
    ensures Reaches(g, a, c)
  {
    var p :| Joins(g, p, a, b);
    var q :| Joins(g, q, b, c);
    var r := p + q[1..];
    forall i | 0 <= i < |r| - 1 ensures Edge(g, r[i], r[i + 1]) {
      if i < |p| - 1 {
        assert r[i] == p[i] && r[i + 1] == p[i + 1];
      } else {
        assert r[i] == q[i - |p| + 1] && r[i + 1] == q[i - |p| + 2];
      }
    }
    assert r[|r| - 1] == c;
    assert Joins(g, r, a, c);
  }

  /** A path of zero edges, or a first edge and the rest. */
  lemma ReachesSplit(g: Graph, a: Id, b: Id)
    requires Reaches(g, a, b)
    ensures a == b || DependsOn(g, a, b)
  {
    var p :| Joins(g, p, a, b);
    if |p| > 1 {
      var q := p[1..];
      forall i | 0 <= i < |q| - 1 ensures Edge(g, q[i], q[i + 1]) {
        assert q[i] == p[i + 1] && q[i + 1] == p[i + 2];
      }
      assert Joins(g, q, p[1], b);
      assert Edge(g, p[0], p[0 + 1]);
      assert Through(g, a, p[1], b);
    }
  }

  lemma EdgeDepends(g: Graph, a: Id, b: Id)
    requires Edge(g, a, b)
    ensures DependsOn(g, a, b)
  {
    ReachesSelf(g, b);
    assert Through(g, a, b, b);
  }

  lemma NoSelfEdge(g: Graph, a: Id)
    requires Acyclic(g)
    ensures !Edge(g, a, a)
  {
    if Edge(g, a, a) { EdgeDepends(g, a, a); }
  }

  lemma DependsReaches(g: Graph, a: Id, b: Id)
    requires DependsOn(g, a, b)
    ensures Reaches(g, a, b)
  {
    var c :| Through(g, a, c, b);
    EdgeThenReaches(g, a, c, b);
  }

  lemma ReachesThenDepends(g: Graph, a: Id, b: Id, c: Id)
    requires Reaches(g, a, b) && DependsOn(g, b, c)
    ensures DependsOn(g, a, c)
  {
    DependsReaches(g, b, c);
    ReachesSplit(g, a, b);
    if a != b {
      var d :| Through(g, a, d, b);
      ReachesTransitive(g, d, b, c);
      assert Through(g, a, d, c);
    }
  }

  lemma DependsThenReaches(g: Graph, a: Id, b: Id, c: Id)
    requires DependsOn(g, a, b) && Reaches(g, b, c)
    ensures DependsOn(g, a, c)
  {
    var d :| Through(g, a, d, b);
    ReachesTransitive(g, d, b, c);
    assert Through(g, a, d, c);
  }

  /** A set closed under edges holds everything reachable from its members. */
  lemma {:induction false} ClosedUnderReaches(g: Graph, s: set<Id>, a: Id, b: Id)
    requires a in s && forall x, y :: x in s && Edge(g, x, y) ==> y in s
    requires Reaches(g, a, b)
    ensures b in s
  {
    var p :| Joins(g, p, a, b);
    ClosedUnderPath(g, s, p);
  }

  lemma {:induction false} ClosedUnderPath(g: Graph, s: set<Id>, p: seq<Id>)
    requires IsPath(g, p) && p[0] in s && forall x, y :: x in s && Edge(g, x, y) ==> y in s
    ensures p[|p| - 1] in s
  {
    if |p| > 1 {
      var q := p[1..];
      assert Edge(g, p[0], p[0 + 1]);
      forall i | 0 <= i < |q| - 1 ensures Edge(g, q[i], q[i + 1]) {
        assert q[i] == p[i + 1] && q[i + 1] == p[i + 2];
      }
      ClosedUnderPath(g, s, q);
    }
  }

  lemma DependsOnNode(g: Graph, a: Id, b: Id)
    requires Valid(g) && DependsOn(g, a, b)
    ensures a in g.nodes && b in g.nodes
  {
    var c :| Through(g, a, c, b);
    ClosedUnderReaches(g, g.nodes, c, b);
  }

  // ---- operations -----------------------------------------------------------------------

  /** `add_node`: the limit is checked even when the node is already there. */
  function AddNode(g: Graph, id: Id): (Outcome<()>, Graph) {
    if |g.nodes| >= MAX_NODES then (Threw(NodeLimit), g)
    else if id in g.nodes then (Returned(()), g)
    else (Returned(()), Graph(g.nodes + {id}, g.outs[id := []], g.ins[id := []]))
  }

  function WithEdge(g: Graph, from: Id, dep: DependencyRef): Graph
    requires from in g.outs && dep.artifact in g.ins
  {
    g.(outs := g.outs[from := g.outs[from] + [dep]],
       ins := g.ins[dep.artifact := g.ins[dep.artifact] + [from]])
  }

  /** `add_edge`, in the order in which the source rejects. */
  ghost function AddEdge(g: Graph, from: Id, dep: DependencyRef): (Outcome<()>, Graph)
    requires Valid(g)
  {
    if from == dep.artifact then (Threw(SelfDependency), g)
    else if from !in g.nodes || dep.artifact !in g.nodes then (Threw(NotANode), g)
    else if Edge(g, from, dep.artifact) then (Threw(DuplicateEdge), g)
    else if Reaches(g, dep.artifact, from) then (Threw(CycleRejected), g)
    else (Returned(()), WithEdge(g, from, dep))
  }

  /** Every node `id` depends on. */
  ghost function Closure(g: Graph, id: Id): set<Id> {
    set b | b in g.nodes && DependsOn(g, id, b)
  }

  /** Every node that depends on `target`. */
  ghost function Dependents(g: Graph, target: Id): set<Id> {
    set n | n in g.nodes && DependsOn(g, n, target)
  }

  // ---- what the operations keep ---------------------------------------------------------

  lemma SameEdgesSamePaths(g: Graph, h: Graph)
    requires forall a, b :: Edge(g, a, b) <==> Edge(h, a, b)
    ensures forall a, b :: Reaches(g, a, b) <==> Reaches(h, a, b)
    ensures forall a, b :: DependsOn(g, a, b) <==> DependsOn(h, a, b)
  {
    assert forall p :: IsPath(g, p) <==> IsPath(h, p);
    assert forall p, a, b :: Joins(g, p, a, b) <==> Joins(h, p, a, b);
    forall a, b ensures Reaches(g, a, b) <==> Reaches(h, a, b) {
      if p :| Joins(g, p, a, b) { assert Joins(h, p, a, b); }
      if p :| Joins(h, p, a, b) { assert Joins(g, p, a, b); }
    }
    assert forall a, c, b :: Through(g, a, c, b) <==> Through(h, a, c, b);
    forall a, b ensures DependsOn(g, a, b) <==> DependsOn(h, a, b) {
      if c :| Through(g, a, c, b) { assert Through(h, a, c, b); }
      if c :| Through(h, a, c, b) { assert Through(g, a, c, b); }
    }
  }

  lemma AddNodeKeepsValid(g: Graph, id: Id)
    requires Valid(g)
    ensures Valid(AddNode(g, id).1)
  {
    var h := AddNode(g, id).1;
    if h != g {
      SameEdgesSamePaths(g, h);
      forall a ensures NoRepeats(h, a) {
        assert NoRepeats(g, a);
      }
      forall b ensures InverseAt(h, b) {
        assert InverseAt(g, b);
        assert b == id ==> forall a :: !Edge(g, a, b);
      }
    }
  }

  /** The edges after one more edge. */
  lemma WithEdgeEdges(g: Graph, from: Id, dep: DependencyRef)
    requires from in g.outs && dep.artifact in g.ins
    ensures forall a, b :: Edge(WithEdge(g, from, dep), a, b) <==>
                           Edge(g, a, b) || (a == from && b == dep.artifact)
  {
    var h := WithEdge(g, from, dep);
    forall a, b ensures Edge(h, a, b) <==> Edge(g, a, b) || (a == from && b == dep.artifact) {
      if a == from {
        assert Targets(Direct(h, a)) == Targets(Direct(g, a)) + [dep.artifact];
      } else {
        assert Direct(h, a) == Direct(g, a);
      }
    }
  }

  /** A path in the graph with a new edge either avoids that edge or passes through it. */
  lemma {:induction false} PathThroughNewEdge(g: Graph, h: Graph, from: Id, to: Id, p: seq<Id>)
    requires forall a, b :: Edge(h, a, b) <==> Edge(g, a, b) || (a == from && b == to)
    requires IsPath(h, p)
    ensures Reaches(g, p[0], p[|p| - 1]) || (Reaches(g, p[0], from) && Reaches(g, to, p[|p| - 1]))
  {
    if |p| == 1 {
      ReachesSelf(g, p[0]);
    } else {
      var q := p[1..];
      forall i | 0 <= i < |q| - 1 ensures Edge(h, q[i], q[i + 1]) {
        assert q[i] == p[i + 1] && q[i + 1] == p[i + 2];
      }
      PathThroughNewEdge(g, h, from, to, q);
      assert Edge(h, p[0], p[0 + 1]);
      if Edge(g, p[0], p[1]) {
        if Reaches(g, q[0], p[|p| - 1]) {
          EdgeThenReaches(g, p[0], p[1], p[|p| - 1]);
        } else {
          EdgeThenReaches(g, p[0], p[1], from);
        }
      } else {
        ReachesSelf(g, from);
      }
    }
  }

  lemma NewEdgeKeepsAcyclic(g: Graph, h: Graph, from: Id, to: Id)
    requires Acyclic(g) && !Reaches(g, to, from)
    requires forall a, b :: Edge(h, a, b) <==> Edge(g, a, b) || (a == from && b == to)
    ensures Acyclic(h)
  {
    forall a ensures !DependsOn(h, a, a) {
      if DependsOn(h, a, a) {
        var c :| Through(h, a, c, a);
        var p :| Joins(h, p, c, a);
        PathThroughNewEdge(g, h, from, to, p);
        if Edge(g, a, c) {
          if Reaches(g, c, a) {
            assert Through(g, a, c, a) && DependsOn(g, a, a);
          } else {
            EdgeThenReaches(g, a, c, from);
            ReachesTransitive(g, to, a, from);
          }
        }
        assert false;
      }
    }
  }

  lemma AddEdgeKeepsValid(g: Graph, from: Id, dep: DependencyRef)
    requires Valid(g)
    ensures Valid(AddEdge(g, from, dep).1)
  {
    var (out, h) := AddEdge(g, from, dep);
    if out.Returned? {
      var to := dep.artifact;
      WithEdgeEdges(g, from, dep);
      NewEdgeKeepsAcyclic(g, h, from, to);
      assert InverseAt(g, to);
      assert Targets(h.outs[from]) == Targets(g.outs[from]) + [to];
      forall a ensures NoRepeats(h, a) {
        assert NoRepeats(g, a);
      }
      forall b ensures InverseAt(h, b) {
        assert InverseAt(g, b);
        if b == to { assert h.ins[b] == g.ins[b] + [from]; }
      }
    }
  }

  // ---- runs -----------------------------------------------------------------------------

  datatype GraphCall = NodeCall(id: Id) | EdgeCall(from: Id, dep: DependencyRef)

  ghost function Apply(g: Graph, c: GraphCall): (Outcome<()>, Graph)
    requires Valid(g)
  {
    match c
    case NodeCall(id) => AddNode(g, id)
    case EdgeCall(from, dep) => AddEdge(g, from, dep)
  }

  lemma ApplyKeepsValid(g: Graph, c: GraphCall)
    requires Valid(g)
    ensures Valid(Apply(g, c).1)
  {
    match c
    case NodeCall(id) => AddNodeKeepsValid(g, id);
    case EdgeCall(from, dep) => AddEdgeKeepsValid(g, from, dep);
  }

  /** The graph after a sequence of calls, whether they returned or threw. */
  ghost function Built(calls: seq<GraphCall>): (g: Graph)
    ensures Valid(g)
  {
    if calls == [] then
      assert forall a, b :: !Edge(EMPTY, a, b);
      EMPTY
    else
      var g := Built(calls[..|calls| - 1]);
      var c := calls[|calls| - 1];
      ApplyKeepsValid(g, c);
      Apply(g, c).1
  }

  lemma MutualReachIsSame(g: Graph, a: Id, b: Id)
    requires Acyclic(g) && Reaches(g, a, b) && Reaches(g, b, a)
    ensures a == b
  {
    ReachesSplit(g, a, b);
    if DependsOn(g, a, b) { DependsThenReaches(g, a, b, a); }
  }

  lemma OneEdgePerTarget(g: Graph, a: Id, i: nat, j: nat)
    requires a in g.outs && a in g.ins && NoRepeats(g, a) && i < j < |g.outs[a]|
    ensures g.outs[a][i].artifact != g.outs[a][j].artifact
  {
    assert Targets(g.outs[a])[i] != Targets(g.outs[a])[j];
  }

  /** In every graph that can be built: no cycle, no self-loop, no duplicate edge, and the
      reverse lists are exactly the inverse of the forward lists. */
  lemma BuiltGraphs(calls: seq<GraphCall>)
    ensures var g := Built(calls);
      && (forall a, b :: Reaches(g, a, b) && Reaches(g, b, a) ==> a == b)
      && (forall a :: !Edge(g, a, a))
      && (forall a, i, j :: a in g.outs && 0 <= i < j < |g.outs[a]| ==>
            g.outs[a][i].artifact != g.outs[a][j].artifact)
      && (forall b :: InverseAt(g, b))
  {
    var g := Built(calls);
    forall a, b | Reaches(g, a, b) && Reaches(g, b, a) ensures a == b {
      MutualReachIsSame(g, a, b);
    }
    forall a ensures !Edge(g, a, a) {
      NoSelfEdge(g, a);
    }
    forall a, i, j | a in g.outs && 0 <= i < j < |g.outs[a]|
      ensures g.outs[a][i].artifact != g.outs[a][j].artifact
    {
      OneEdgePerTarget(g, a, i, j);
    }
  }

  /** An edge is rejected exactly when it would repeat an edge, close a cycle (a self-loop
      included) or touch an unknown node; and a rejected call leaves the graph as it was. */
  lemma EdgeRejectedIff(g: Graph, from: Id, dep: DependencyRef)
    requires Valid(g)
    ensures AddEdge(g, from, dep).0.Threw? <==>
              || from !in g.nodes || dep.artifact !in g.nodes
              || Edge(g, from, dep.artifact)
              || !Acyclic(WithEdge(g, from, dep))
    ensures AddEdge(g, from, dep).0.Threw? ==> AddEdge(g, from, dep).1 == g
  {
    if from in g.nodes && dep.artifact in g.nodes {
      var to := dep.artifact;
      var h := WithEdge(g, from, dep);
      WithEdgeEdges(g, from, dep);
      ReachesSelf(g, from);
      if Reaches(g, to, from) {
        var p :| Joins(g, p, to, from);
        assert forall i :: 0 <= i < |p| - 1 ==> Edge(g, p[i], p[i + 1]);
        assert Joins(h, p, to, from) && Edge(h, from, to);
        assert Through(h, from, to, from) && DependsOn(h, from, from);
      } else {
        NewEdgeKeepsAcyclic(g, h, from, to);
      }
    }
  }
}
