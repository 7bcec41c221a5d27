/** Topological orders of a dependency graph, and what makes one the least. */
module TopologicalOrders {
  import opened Collections
  import opened Types
  import opened Sorting
  import opened GraphModel

  /** Every node once, and no node before one that depends on it. */
  ghost predicate IsTopological(g: Graph, t: seq<Id>) {
    && Distinct(t)
    && (forall n :: n in t <==> n in g.nodes)
    && (forall i, j :: 0 <= i < j < |t| ==> !Edge(g, t[j], t[i]))
  }

  /** Lexicographic order on sequences of identifiers. */
  ghost predicate LexAtMost(s: seq<Id>, t: seq<Id>) {
    || s <= t
    || exists k :: 0 <= k < |s| && k < |t| && s[..k] == t[..k] && s[k] < t[k]
  }

  /** All of `n`'s dependents are among `done`. */
  ghost predicate Free(g: Graph, done: seq<Id>, n: Id) {
    forall p :: Edge(g, p, n) ==> p in done
  }

  /** Position `k` holds the least node that could come next. */
  ghost predicate GreedyAt(g: Graph, t: seq<Id>, k: nat)
    requires k < |t|
  {
    forall n {:trigger Free(g, t[..k], n)} ::
      n in g.nodes && n !in t[..k] && Free(g, t[..k], n) ==> t[k] <= n
  }

  ghost predicate Greedy(g: Graph, t: seq<Id>) {
    forall k :: 0 <= k < |t| ==> GreedyAt(g, t, k)
  }

  /** In a topological order each node is free when its turn comes. */
  lemma FreeAtItsTurn(g: Graph, t: seq<Id>, k: nat)
    requires Valid(g) && IsTopological(g, t) && k < |t|
    ensures t[k] in g.nodes && t[k] !in t[..k] && Free(g, t[..k], t[k])
  {
    assert t[k] in t;
    forall p | Edge(g, p, t[k]) ensures p in t[..k] {
      assert p in g.nodes;
      var i :| 0 <= i < |t| && t[i] == p;
      NoSelfEdge(g, p);
      assert !(k < i);
      assert t[..k][i] == p;
    }
  }

  lemma TopologicalLength(g: Graph, t: seq<Id>)
    requires IsTopological(g, t)
    ensures |t| == |g.nodes|
  {
    DistinctSize(t);
    assert Elements(t) == g.nodes;
  }

  /** Choosing the least free node at each position yields the least topological order. */
  lemma GreedyIsLeast(g: Graph, t: seq<Id>, u: seq<Id>)
    requires Valid(g) && IsTopological(g, t) && Greedy(g, t) && IsTopological(g, u)
    ensures LexAtMost(t, u)
  {
    TopologicalLength(g, t);
    TopologicalLength(g, u);
    FirstDifference(g, t, u, 0);
  }

  lemma {:induction false} FirstDifference(g: Graph, t: seq<Id>, u: seq<Id>, k: nat)
    requires Valid(g) && IsTopological(g, t) && Greedy(g, t) && IsTopological(g, u)
    requires k <= |t| == |u| && t[..k] == u[..k]
    ensures LexAtMost(t, u)
    decreases |t| - k
  {
    if k == |t| {
      assert t == u;
    } else if t[k] == u[k] {
      assert t[..k + 1] == t[..k] + [t[k]] && u[..k + 1] == u[..k] + [u[k]];
      FirstDifference(g, t, u, k + 1);
    } else {
      FreeAtItsTurn(g, u, k);
      assert GreedyAt(g, t, k);
      assert t[k] < u[k];
    }
  }

  // ---- Kahn's counters ------------------------------------------------------------------

  /** How many of `ins` are not yet in `done`. */
  function Pending(ins: seq<Id>, done: seq<Id>): nat {
    if ins == [] then 0
    else (if ins[0] in done then 0 else 1) + Pending(ins[1..], done)
  }

  lemma {:induction false} PendingNone(ins: seq<Id>, done: seq<Id>)
    ensures Pending(ins, done) == 0 <==> forall p :: p in ins ==> p in done
  {
    if ins != [] {
      PendingNone(ins[1..], done);
      assert forall p :: p in ins <==> p == ins[0] || p in ins[1..];
    }
  }

  lemma {:induction false} PendingAll(ins: seq<Id>)
    ensures Pending(ins, []) == |ins|
  {
    if ins != [] { PendingAll(ins[1..]); }
  }

  lemma {:induction false} PendingStep(ins: seq<Id>, done: seq<Id>, cur: Id)
    requires Distinct(ins) && cur !in done
    ensures Pending(ins, done + [cur]) == Pending(ins, done) - (if cur in ins then 1 else 0)
  {
    if ins != [] {
      PendingStep(ins[1..], done, cur);
      assert forall p :: p in ins <==> p == ins[0] || p in ins[1..];
    }
  }

  lemma FewerDependents(g: Graph, p: Id, n: Id)
    requires Valid(g) && Edge(g, p, n)
    ensures Dependents(g, p) < Dependents(g, n)
  {
    EdgeDepends(g, p, n);
    DependsReaches(g, p, n);
    forall m | m in Dependents(g, p) ensures m in Dependents(g, n) {
      DependsThenReaches(g, m, p, n);
    }
    assert p in g.nodes by { assert p in g.outs; }
    assert p in Dependents(g, n) && p !in Dependents(g, p);
  }

  ghost predicate HasDependentIn(g: Graph, rest: set<Id>, n: Id) {
    exists p :: p in rest && Edge(g, p, n)
  }

  /** Following dependents upwards inside a finite acyclic graph must come to an end. */
  lemma {:induction false} NoEndlessChain(g: Graph, rest: set<Id>, n: Id)
    requires Valid(g) && rest <= g.nodes && n in rest
    requires forall m :: m in rest ==> HasDependentIn(g, rest, m)
    ensures false
    decreases Dependents(g, n)
  {
    assert HasDependentIn(g, rest, n);
    var p :| p in rest && Edge(g, p, n);
    FewerDependents(g, p, n);
    NoEndlessChain(g, rest, p);
  }
}
