/** The bytes a dependency digest is taken over. */
module DependencyDigests {
  import opened Types
  import opened Collections
  import opened Sorting
  import opened Encoding
  import opened GraphModel

  /** The first edge to `x`, if there is one. */
  function EdgeTo(refs: seq<DependencyRef>, x: Id): Option<DependencyRef> {
    if refs == [] then None
    else if refs[0].artifact == x then Some(refs[0])
    else EdgeTo(refs[1..], x)
  }

  /** What is fed to the hash for one transitive dependency `x`. */
  function FeedOne(refs: seq<DependencyRef>, x: Id): Bytes {
    match EdgeTo(refs, x)
    case Some(dep) => BE(x, 16) + BE(dep.generation, 8) + BE(dep.digest, 32)
    case None => BE(x, 16) + BE(0, 8)
  }

  function Feed(refs: seq<DependencyRef>, ids: seq<Id>): Bytes {
    if ids == [] then [] else Feed(refs, ids[..|ids| - 1]) + FeedOne(refs, ids[|ids| - 1])
  }

  /** Everything `dependency_digest(id)` feeds to the hash. */
  ghost function DigestInput(g: Graph, id: Id): Bytes {
    Feed(Direct(g, id), SortedIds(Closure(g, id)))
  }

  /** The same edges, whatever the order in which they were added. */
  ghost predicate SameEdgeSet(g: Graph, h: Graph) {
    forall a, dep :: dep in Direct(g, a) <==> dep in Direct(h, a)
  }

  lemma {:induction false} EdgeToIs(refs: seq<DependencyRef>, x: Id)
    requires Distinct(Targets(refs))
    ensures EdgeTo(refs, x).Some? <==> x in Targets(refs)
    ensures forall dep :: dep in refs && dep.artifact == x ==> EdgeTo(refs, x) == Some(dep)
    ensures EdgeTo(refs, x).Some? ==> EdgeTo(refs, x).value in refs && EdgeTo(refs, x).value.artifact == x
  {
    if refs != [] {
      var t := Targets(refs);
      assert Targets(refs[1..]) == t[1..];
      EdgeToIs(refs[1..], x);
      forall dep | dep in refs && dep.artifact == x ensures EdgeTo(refs, x) == Some(dep) {
        var i :| 0 <= i < |refs| && refs[i] == dep;
        assert t[i] == x;
        if i > 0 { assert refs[1..][i - 1] == dep; assert t[0] != t[i]; }
      }
      if x in t && refs[0].artifact != x {
        var i :| 0 <= i < |t| && t[i] == x;
        assert t[1..][i - 1] == x;
      }
    }
  }

  lemma {:induction false} FeedDependsOnEdges(refs: seq<DependencyRef>, refs': seq<DependencyRef>, ids: seq<Id>)
    requires forall x :: EdgeTo(refs, x) == EdgeTo(refs', x)
    ensures Feed(refs, ids) == Feed(refs', ids)
  {
    if ids != [] { FeedDependsOnEdges(refs, refs', ids[..|ids| - 1]); }
  }

  lemma FeedSnoc(refs: seq<DependencyRef>, ids: seq<Id>, i: nat)
    requires i < |ids|
    ensures Feed(refs, ids[..i + 1]) == Feed(refs, ids[..i]) + FeedOne(refs, ids[i])
  {
    assert ids[..i + 1][..i] == ids[..i];
  }

  lemma SameEdgeSetSameEdges(g: Graph, h: Graph)
    requires SameEdgeSet(g, h)
    ensures forall a, b :: Edge(g, a, b) <==> Edge(h, a, b)
  {
    forall a, b ensures Edge(g, a, b) <==> Edge(h, a, b) {
      if Edge(g, a, b) {
        var i :| 0 <= i < |Targets(Direct(g, a))| && Targets(Direct(g, a))[i] == b;
        assert Direct(g, a)[i] in Direct(h, a);
        var j :| 0 <= j < |Direct(h, a)| && Direct(h, a)[j] == Direct(g, a)[i];
        assert Targets(Direct(h, a))[j] == b;
      }
      if Edge(h, a, b) {
        var i :| 0 <= i < |Targets(Direct(h, a))| && Targets(Direct(h, a))[i] == b;
        assert Direct(h, a)[i] in Direct(g, a);
        var j :| 0 <= j < |Direct(g, a)| && Direct(g, a)[j] == Direct(h, a)[i];
        assert Targets(Direct(g, a))[j] == b;
      }
    }
  }

  /** Graphs with the same edges feed the same bytes for every node, in whatever order the
      nodes and edges were inserted. */
  lemma DigestIgnoresInsertionOrder(g: Graph, h: Graph, id: Id)
    requires Valid(g) && Valid(h) && SameEdgeSet(g, h)
    ensures DigestInput(g, id) == DigestInput(h, id)
  {
    SameEdgeSetSameEdges(g, h);
    SameEdgesSamePaths(g, h);
    forall b ensures b in Closure(g, id) <==> b in Closure(h, id) {
      if DependsOn(g, id, b) { DependsOnNode(g, id, b); DependsOnNode(h, id, b); }
    }
    assert Closure(g, id) == Closure(h, id);
    var refs, refs' := Direct(g, id), Direct(h, id);
    assert NoRepeats(g, id) && NoRepeats(h, id);
    forall x ensures EdgeTo(refs, x) == EdgeTo(refs', x) {
      EdgeToIs(refs, x);
      EdgeToIs(refs', x);
      if EdgeTo(refs, x).Some? { assert EdgeTo(refs, x).value in refs'; }
      if EdgeTo(refs', x).Some? { assert EdgeTo(refs', x).value in refs; }
    }
    FeedDependsOnEdges(refs, refs', SortedIds(Closure(g, id)));
  }
}

/** The dependency graph as the program keeps it: three containers updated in place. */
module DependencyGraphs {
  import opened Types
  import opened Collections
  import opened Sorting
  import opened Encoding
  import opened GraphModel
  import opened DependencyDigests
  import opened TopologicalOrders

  class DependencyGraph {
    var nodes: set<Id>
    var outs: map<Id, seq<DependencyRef>>
    var ins: map<Id, seq<Id>>

    ghost function G(): Graph
      reads this
    {
      Graph(nodes, outs, ins)
    }

    function DirectDependencies(id: Id): seq<DependencyRef>
      reads this
    {
      if id in outs then outs[id] else []
    }

    constructor ()
      ensures G() == EMPTY && Valid(G())
    {
      nodes, outs, ins := {}, map[], map[];
      new;
      assert Valid(Built([]));
    }

    method Clear()
      modifies this
      ensures G() == EMPTY && Valid(G())
    {
      nodes, outs, ins := {}, map[], map[];
      assert Valid(Built([]));
    }

    method AddNode(id: Id) returns (r: Outcome<()>)
      requires Valid(G())
      modifies this
      ensures (r, G()) == GraphModel.AddNode(old(G()), id)
    {
      if |nodes| >= MAX_NODES { return Threw(NodeLimit); }
      nodes := nodes + {id};
      if id !in outs { outs := outs[id := []]; }
      if id !in ins { ins := ins[id := []]; }
      assert id in old(nodes) ==> nodes == old(nodes);
      r := Returned(());
    }

    method AddEdge(from: Id, dep: DependencyRef) returns (r: Outcome<()>)
      requires Valid(G())
      modifies this
      ensures (r, G()) == GraphModel.AddEdge(old(G()), from, dep)
    {
      if from == dep.artifact { return Threw(SelfDependency); }
      if from !in nodes { return Threw(NotANode); }
      if dep.artifact !in nodes { return Threw(NotANode); }
      var found := false;
      for i := 0 to |outs[from]|
        invariant found <==> dep.artifact in Targets(outs[from])[..i]
      {
        if outs[from][i].artifact == dep.artifact { found := true; }
      }
      if found { return Threw(DuplicateEdge); }
      var cycle := CreatesCycle(from, dep.artifact);
      if cycle { return Threw(CycleRejected); }
      outs := outs[from := outs[from] + [dep]];
      ins := ins[dep.artifact := ins[dep.artifact] + [from]];
      r := Returned(());
    }

    /** Depth-first search with an explicit stack: does `to` already reach `from`? */
    method CreatesCycle(from: Id, to: Id) returns (cycle: bool)
      requires Valid(G())
      ensures cycle <==> Reaches(G(), to, from)
    {
      ghost var g := G();
      var stack: seq<Id> := [to];
      var visited: set<Id> := {};
      ReachesSelf(g, to);
      while stack != []
        invariant to in visited || to in stack
        invariant visited <= g.nodes + {to} && forall x :: x in stack ==> x in g.nodes + {to}
        invariant forall x :: x in visited || x in stack ==> Reaches(g, to, x)
        invariant from !in visited
        invariant forall x, y :: x in visited && Edge(g, x, y) ==> y in visited || y in stack
        decreases (g.nodes + {to}) - visited, |stack|
      {
        var cur := stack[|stack| - 1];
        ghost var before := stack;
        stack := stack[..|stack| - 1];
        assert before == stack + [cur];
        assert forall x :: x in before <==> x in stack || x == cur;
        if cur == from { return true; }
        if cur !in visited {
          visited := visited + {cur};
          if cur in outs {
            stack := stack + Targets(outs[cur]);
          }
          assert forall y :: y in Targets(Direct(g, cur)) <==> Edge(g, cur, y);
          forall y | Edge(g, cur, y) ensures y in g.nodes && Reaches(g, to, y) {
            EdgeDepends(g, cur, y);
            ReachesThenDepends(g, to, cur, y);
            DependsReaches(g, to, y);
          }
        }
      }
      if Reaches(g, to, from) {
        ClosedUnderReaches(g, visited, to, from);
      }
      cycle := false;
    }

    /** The nodes reachable in one or more edges, ascending. */
    method TransitiveDependencies(id: Id) returns (r: seq<Id>)
      requires Valid(G())
      ensures r == SortedIds(Closure(G(), id))
    {
      ghost var g := G();
      var seen: set<Id> := {};
      var stack := Targets(DirectDependencies(id));
      SearchStart(g, id);
      while stack != []
        invariant Searching(g, id, seen, stack)
        decreases g.nodes - seen, |stack|
      {
        var cur := stack[|stack| - 1];
        SearchStep(g, id, seen, stack);
        stack := stack[..|stack| - 1];
        if cur !in seen {
          seen := seen + {cur};
          stack := stack + Targets(DirectDependencies(cur));
        }
      }
      SearchDone(g, id, seen);
      r := SortIds(seen);
    }

    /** Every node that depends on `target`, ascending. */
    method Dependents(target: Id) returns (r: seq<Id>)
      requires Valid(G())
      ensures r == SortedIds(GraphModel.Dependents(G(), target))
    {
      var result: set<Id> := {};
      var todo := SortIds(nodes);
      ghost var wanted := GraphModel.Dependents(G(), target);
      for i := 0 to |todo|
        invariant result == wanted * Elements(todo[..i])
      {
        var closure := TransitiveDependencies(todo[i]);
        DependentsStep(G(), target, todo, i, closure);
        if target in closure { result := result + {todo[i]}; }
      }
      assert Elements(todo[..|todo|]) == nodes;
      assert result == wanted;
      r := SortIds(result);
    }

    /** The part of the digest input that stands for one transitive dependency. */
    static method FeedDependency(refs: seq<DependencyRef>, x: Id) returns (part: Bytes)
      ensures part == FeedOne(refs, x)
    {
      for j := 0 to |refs|
        invariant EdgeTo(refs, x) == EdgeTo(refs[j..], x)
      {
        if refs[j].artifact == x {
          return BE(x, 16) + BE(refs[j].generation, 8) + BE(refs[j].digest, 32);
        }
      }
      part := BE(x, 16) + BE(0, 8);
    }

    /** The bytes fed to the hash by `dependency_digest`. */
    method DigestBytes(id: Id) returns (fed: Bytes)
      requires Valid(G())
      ensures fed == DigestInput(G(), id)
    {
      var closure := TransitiveDependencies(id);
      var refs := DirectDependencies(id);
      fed := [];
      for i := 0 to |closure|
        invariant fed == Feed(refs, closure[..i])
      {
        var part := FeedDependency(refs, closure[i]);
        fed := fed + part;
        FeedSnoc(refs, closure, i);
      }
      assert closure[..|closure|] == closure;
    }

    /** The edges out of `cur` are taken away: each target loses one from its count, and
        joins the ready list, which is sorted again, when its count reaches zero. */
    method Release(cur: Id, ready0: seq<Id>, indeg0: map<Id, int>, ghost order: seq<Id>)
      returns (ready: seq<Id>, indeg: map<Id, int>)
      requires Valid(G()) && cur in nodes && cur !in order
      requires forall n :: n in order ==> Free(G(), order, n)
      requires Counting(G(), order + [cur], ready0, indeg0, Targets(G().outs[cur]))
      ensures Counting(G(), order + [cur], ready, indeg, [])
    {
      ghost var g := G();
      ghost var next := order + [cur];
      ready, indeg := ready0, indeg0;
      var refs := outs[cur];
      for i := 0 to |refs|
        invariant Counting(g, next, ready, indeg, Targets(refs)[i..])
      {
        var o := refs[i].artifact;
        ReleaseStep(g, order, cur, ready, indeg, i);
        indeg := indeg[o := indeg[o] - 1];
        if indeg[o] == 0 {
          ready := SortIds(Elements(ready + [o]));
        }
      }
      assert Targets(refs)[|refs|..] == [];
    }

    /** Kahn's algorithm with a sorted ready list. On every valid graph it returns, and what
        it returns is the least topological order. */
    method TopologicalOrder() returns (r: Outcome<seq<Id>>)
      requires Valid(G())
      ensures r.Returned? && IsTopological(G(), r.value)
      ensures forall t :: IsTopological(G(), t) ==> LexAtMost(r.value, t)
    {
      ghost var g := G();
      var indeg: map<Id, int> := map n | n in nodes :: |ins[n]|;
      var order: seq<Id> := [];
      var ready := SortIds(set n | n in nodes && indeg[n] == 0);
      forall n | n in nodes ensures indeg[n] == Pending(g.ins[n], order) { PendingAll(g.ins[n]); }
      while ready != []
        invariant Counting(g, order, ready, indeg, [])
        invariant Extendable(g, order)
        decreases g.nodes - Elements(order)
      {
        var cur := ready[0];
        KahnStep(g, order, ready, indeg);
        ghost var done := order;
        ready, indeg := Release(cur, ready[1..], indeg, order);
        order := order + [cur];
        assert cur in Elements(order) && cur !in Elements(done);
      }
      Exhausted(g, order, indeg);
      if |order| != |nodes| { return Threw(CycleRejected); }
      forall t | IsTopological(g, t) ensures LexAtMost(order, t) { GreedyIsLeast(g, order, t); }
      r := Returned(order);
    }
  }

  /** Where a depth-first search from `id` stands: everything met depends-on-reachable, and
      every edge out of `id` or a seen node leads to something met. */
  ghost predicate Searching(g: Graph, id: Id, seen: set<Id>, stack: seq<Id>) {
    && seen <= g.nodes
    && (forall x :: x in stack ==> x in g.nodes)
    && (forall x :: x in seen || x in stack ==> DependsOn(g, id, x))
    && (forall y :: Edge(g, id, y) ==> y in seen || y in stack)
    && (forall x, y :: x in seen && Edge(g, x, y) ==> y in seen || y in stack)
  }

  lemma SearchStart(g: Graph, id: Id)
    requires Valid(g)
    ensures Searching(g, id, {}, Targets(Direct(g, id)))
  {
    var stack := Targets(Direct(g, id));
    forall x | x in stack ensures x in g.nodes && DependsOn(g, id, x) {
      assert Edge(g, id, x);
      EdgeDepends(g, id, x);
    }
  }

  lemma SearchStep(g: Graph, id: Id, seen: set<Id>, stack: seq<Id>)
    requires Valid(g) && stack != [] && Searching(g, id, seen, stack)
    ensures var cur, rest := stack[|stack| - 1], stack[..|stack| - 1];
      && (cur in seen ==> Searching(g, id, seen, rest))
      && (cur !in seen ==> Searching(g, id, seen + {cur}, rest + Targets(Direct(g, cur))))
  {
    var cur, rest := stack[|stack| - 1], stack[..|stack| - 1];
    assert stack == rest + [cur];
    assert forall x :: x in stack <==> x in rest || x == cur;
    assert cur in stack;
    var more := Targets(Direct(g, cur));
    forall y | y in more ensures y in g.nodes && DependsOn(g, id, y) {
      assert Edge(g, cur, y);
      EdgeDepends(g, cur, y);
      DependsReaches(g, id, cur);
      ReachesThenDepends(g, id, cur, y);
    }
    assert forall y :: Edge(g, cur, y) ==> y in more;
  }

  lemma SearchDone(g: Graph, id: Id, seen: set<Id>)
    requires Valid(g) && Searching(g, id, seen, [])
    ensures seen == Closure(g, id)
  {
    forall x ensures x in seen <==> x in Closure(g, id) {
      if DependsOn(g, id, x) {
        var c :| Through(g, id, c, x);
        ClosedUnderReaches(g, seen, c, x);
      }
    }
  }

  lemma DependentsStep(g: Graph, target: Id, todo: seq<Id>, i: nat, closure: seq<Id>)
    requires Valid(g) && i < |todo| && todo[i] in g.nodes && closure == SortedIds(Closure(g, todo[i]))
    ensures GraphModel.Dependents(g, target) * Elements(todo[..i + 1]) ==
            GraphModel.Dependents(g, target) * Elements(todo[..i]) + if target in closure then {todo[i]} else {}
  {
    var n := todo[i];
    assert todo[..i + 1] == todo[..i] + [n];
    assert Elements(todo[..i + 1]) == Elements(todo[..i]) + {n};
    if DependsOn(g, n, target) { DependsOnNode(g, n, target); }
    assert target in closure <==> n in GraphModel.Dependents(g, target);
  }

  /** Kahn's bookkeeping: counts of dependents outside `order` (plus one for each edge in
      `owed`, not yet taken away), and the ascending list of the nodes whose count is zero. */
  ghost predicate Counting(g: Graph, order: seq<Id>, ready: seq<Id>, indeg: map<Id, int>, owed: seq<Id>) {
    && indeg.Keys == g.nodes && g.ins.Keys == g.nodes
    && Ascending(ready)
    && (forall n :: n in ready <==> n in g.nodes && n !in order && indeg[n] == 0)
    && (forall n :: n in g.nodes ==> indeg[n] == Pending(g.ins[n], order) + if n in owed then 1 else 0)
  }

  /** `order` is the beginning of a greedy topological order. */
  ghost predicate Extendable(g: Graph, order: seq<Id>) {
    && Distinct(order)
    && (forall n :: n in order ==> n in g.nodes && Free(g, order, n))
    && (forall i, j :: 0 <= i < j < |order| ==> !Edge(g, order[j], order[i]))
    && Greedy(g, order)
  }

  lemma SortedWithOne(ready: seq<Id>, o: Id)
    ensures Ascending(SortedIds(Elements(ready + [o])))
    ensures forall n :: n in SortedIds(Elements(ready + [o])) <==> n in ready || n == o
  {
  }

  /** A node with a dependent outside `order` is not in `order`. */
  lemma NotYetOrdered(g: Graph, order: seq<Id>, cur: Id, o: Id)
    requires Acyclic(g) && cur !in order && Edge(g, cur, o)
    requires forall n :: n in order ==> Free(g, order, n)
    ensures o !in order + [cur]
  {
    NoSelfEdge(g, o);
    assert o in order ==> Free(g, order, o);
  }

  /** One edge taken away: the count of its target goes down. */
  lemma CountDown(g: Graph, next: seq<Id>, ready: seq<Id>, indeg: map<Id, int>, o: Id, owed: seq<Id>)
    requires o in g.nodes && o !in next && o !in owed
    requires Counting(g, next, ready, indeg, [o] + owed)
    ensures o in indeg
    ensures var down := indeg[o := indeg[o] - 1];
      Counting(g, next, if down[o] == 0 then SortedIds(Elements(ready + [o])) else ready, down, owed)
  {
    assert forall n :: n in [o] + owed <==> n == o || n in owed;
    assert indeg[o] >= 1;
    SortedWithOne(ready, o);
  }

  lemma ReleaseStep(g: Graph, order: seq<Id>, cur: Id, ready: seq<Id>, indeg: map<Id, int>, i: nat)
    requires Valid(g) && cur in g.nodes && cur !in order && i < |g.outs[cur]|
    requires forall n :: n in order ==> Free(g, order, n)
    requires Counting(g, order + [cur], ready, indeg, Targets(g.outs[cur])[i..])
    ensures g.outs[cur][i].artifact in indeg
    ensures var o := g.outs[cur][i].artifact; var down := indeg[o := indeg[o] - 1];
      Counting(g, order + [cur], if down[o] == 0 then SortedIds(Elements(ready + [o])) else ready, down,
               Targets(g.outs[cur])[i + 1..])
  {
    var targets := Targets(g.outs[cur]);
    var o := targets[i];
    assert Edge(g, cur, o);
    NotYetOrdered(g, order, cur, o);
    assert NoRepeats(g, cur);
    assert targets[i..] == [o] + targets[i + 1..];
    CountDown(g, order + [cur], ready, indeg, o, targets[i + 1..]);
  }

  /** The head of the ready list is the least free node. */
  lemma ReadyIsFree(g: Graph, order: seq<Id>, ready: seq<Id>, indeg: map<Id, int>)
    requires Valid(g) && Counting(g, order, ready, indeg, [])
    ensures forall n {:trigger Free(g, order, n)} :: n in ready <==> n in g.nodes && n !in order && Free(g, order, n)
  {
    forall n | n in g.nodes ensures indeg[n] == 0 <==> Free(g, order, n) {
      assert InverseAt(g, n);
      PendingNone(g.ins[n], order);
    }
  }

  lemma ExtendGreedily(g: Graph, order: seq<Id>, cur: Id)
    requires Extendable(g, order)
    requires cur in g.nodes && cur !in order && Free(g, order, cur) && !Edge(g, cur, cur)
    requires forall n {:trigger Free(g, order, n)} :: n in g.nodes && n !in order && Free(g, order, n) ==> cur <= n
    ensures Extendable(g, order + [cur])
  {
    var next := order + [cur];
    forall k | 0 <= k < |next| ensures GreedyAt(g, next, k) {
      if k < |order| {
        assert next[..k] == order[..k];
        assert GreedyAt(g, order, k);
      } else {
        assert next[..k] == order;
      }
    }
    forall i, j | 0 <= i < j < |next| ensures !Edge(g, next[j], next[i]) {
      if j == |order| { assert Free(g, order, order[i]); }
    }
    forall n | n in next ensures n in g.nodes && Free(g, next, n) {
      assert Free(g, order, n);
    }
  }

  /** One round of Kahn's algorithm: the head of the ready list extends a greedy order. */
  lemma KahnStep(g: Graph, order: seq<Id>, ready: seq<Id>, indeg: map<Id, int>)
    requires Valid(g) && ready != []
    requires Counting(g, order, ready, indeg, []) && Extendable(g, order)
    ensures var cur := ready[0];
      && cur in g.nodes && cur !in order && cur in g.outs
      && Extendable(g, order + [cur])
      && Counting(g, order + [cur], ready[1..], indeg, Targets(g.outs[cur]))
  {
    var cur := ready[0];
    assert cur in ready;
    ReadyIsFree(g, order, ready, indeg);
    NoSelfEdge(g, cur);
    assert Free(g, order, cur);
    ExtendGreedily(g, order, cur);
    StartRelease(g, order, ready, indeg);
  }

  lemma StartRelease(g: Graph, order: seq<Id>, ready: seq<Id>, indeg: map<Id, int>)
    requires Valid(g) && ready != [] && Counting(g, order, ready, indeg, [])
    ensures ready[0] in g.outs
    ensures Counting(g, order + [ready[0]], ready[1..], indeg, Targets(g.outs[ready[0]]))
  {
    var cur := ready[0];
    assert cur in ready;
    assert ready == [cur] + ready[1..];
    var next := order + [cur];
    forall n | n in g.nodes
      ensures indeg[n] == Pending(g.ins[n], next) + if n in Targets(g.outs[cur]) then 1 else 0
    {
      assert NoRepeats(g, n) && InverseAt(g, n);
      PendingStep(g.ins[n], order, cur);
      assert Edge(g, cur, n) <==> n in Targets(g.outs[cur]);
    }
  }

  /** When nothing is ready, nothing is left. */
  lemma Exhausted(g: Graph, order: seq<Id>, indeg: map<Id, int>)
    requires Valid(g) && Counting(g, order, [], indeg, []) && Extendable(g, order)
    ensures IsTopological(g, order) && |order| == |g.nodes|
  {
    var rest := set n | n in g.nodes && n !in order;
    forall n | n in rest ensures HasDependentIn(g, rest, n) {
      assert InverseAt(g, n);
      PendingNone(g.ins[n], order);
      var p :| p in g.ins[n] && p !in order;
      assert Edge(g, p, n);
      assert p in g.outs;
    }
    forall n | n in g.nodes ensures n in order {
      if n in rest { NoEndlessChain(g, rest, n); }
    }
    TopologicalLength(g, order);
  }
}
