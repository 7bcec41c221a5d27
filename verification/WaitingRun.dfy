/** An artifact that becomes reusable when the one it named in advance is published. */
module WaitingRun {
  import opened Types
  import opened Collections
  import opened Lifecycle
  import opened GraphModel
  import opened CatalogModel
  import opened Invalidation
  import opened CatalogEffects
  import opened CatalogRuns
  import opened Publications
  import opened Reuse
  import opened Safety
  import opened Reusability
  import opened FailingRuns

  /** An artifact that names one yet to come; another one, and its invalidation; and then the
      one that was named, built on what was invalidated. */
  const WAITING := [
    Pub(3, 0, 1, [On(2)], []), Pub(1, 0, 1, [], []), Invalidate(1, [], ME), Pub(2, 0, 1, [On(1)], [])]

  /** 3 is as it was published, and its edge to 2 is the only one. */
  ghost predicate Waits(s: State) {
    && 3 in s.artifacts && PlainArtifact(s.artifacts[3], 2)
    && s.graph.nodes == {1, 2, 3} && forall a, b :: Edge(s.graph, a, b) <==> a == 3 && b == 2
  }

  /** A published artifact that names `dep` and nothing else. */
  predicate PlainArtifact(d: Descriptor, dep: Id) {
    && d.lifecycle == PUBLISHED && d.validation == INTEGRITY_OK && d.provenance == 1 && d.placements == []
    && d.dependencies == [On(dep)]
  }

  lemma NothingFrom(g: Graph, a: Id)
    requires forall b :: !Edge(g, a, b)
    ensures Direct(g, a) == [] && forall x :: !DependsOn(g, a, x)
  {
    FirstEdge(g, a);
  }

  lemma FirstEdge(g: Graph, a: Id)
    ensures Direct(g, a) != [] ==> Edge(g, a, Direct(g, a)[0].artifact)
  {
    if Direct(g, a) != [] { assert Targets(Direct(g, a))[0] == Direct(g, a)[0].artifact; }
  }

  lemma OneEdge(g: Graph)
    requires forall a, b :: Edge(g, a, b) <==> a == 3 && b == 2
    ensures (forall x :: !DependsOn(g, x, 1)) && Direct(g, 2) == [] && Fits(g, 2, [On(1)])
  {
    NothingFrom(g, 1);
    NothingFrom(g, 2);
    forall x ensures !DependsOn(g, x, 1) {
      if c :| Through(g, x, c, 1) { ReachesSplit(g, c, 1); }
    }
    OneTarget(On(1));
  }

  lemma OneArtifact(h: Bytes -> Digest)
    ensures AllReturn(h, WAITING[..1])
    ensures var s := After(h, WAITING[..1]); Entered(h, NEW_CATALOG, s, 3, 0, 1, [On(2)], [])
  {
    hide After, AllReturn, Do, WellFormed, Entered;
    NoCalls(h);
    NewNode(NEW_CATALOG, 3, [On(2)]);
    PlainReturns(h, NEW_CATALOG, 3, 0, 1, [On(2)], []);
    OneMore(h, [], WAITING[0]);
    assert [] + [WAITING[0]] == WAITING[..1];
  }

  /** After the first two calls. */
  lemma TwoArtifacts(h: Bytes -> Digest)
    ensures AllReturn(h, WAITING[..2])
    ensures var s := After(h, WAITING[..2]);
      && s.artifacts.Keys == {1, 3} && s.artifacts[1].lifecycle == PUBLISHED && Waits(s)
      && s.epoch == 0 && s.boot == 0 && s.counters.logicalBytes == 0
  {
    hide After, AllReturn, Do, WellFormed, Edge, Chargeable;
    OneArtifact(h);
    OneTarget(On(2));
    NoTargets();
    var s := After(h, WAITING[..1]);
    NothingCharged(h, WAITING[..1], h([]));
    assert s.graph.nodes == {2, 3};
    NewNode(s, 1, []);
    PlainReturns(h, s, 1, 0, 1, [], []);
    OneMore(h, WAITING[..1], WAITING[1]);
    assert WAITING[..1] + [WAITING[1]] == WAITING[..2];
    NoEdgesAtFirst();
    assert After(h, WAITING[..2]).graph.nodes == {1, 2, 3};
  }

  lemma NoEdgesAtFirst()
    ensures forall a, b :: !Edge(EMPTY, a, b)
  {
  }

  /** After the invalidation. */
  lemma OneInvalidated(h: Bytes -> Digest)
    ensures AllReturn(h, WAITING[..3])
    ensures var s := After(h, WAITING[..3]);
      && s.artifacts.Keys == {1, 3} && s.artifacts[1].lifecycle == INVALIDATED && Waits(s)
      && s.epoch == 0 && s.boot == 0 && s.counters.logicalBytes == 0
  {
    hide After, AllReturn, Do, WellFormed, Edge, DependsOn, Fits;
    TwoArtifacts(h);
    var s := After(h, WAITING[..2]);
    OneEdge(s.graph);
    InvalidateAlone(h, s, 1);
    OneMore(h, WAITING[..2], WAITING[2]);
    assert WAITING[..2] + [WAITING[2]] == WAITING[..3];
  }

  /** The publication is not reusable itself, its dependency being invalid; but it makes the one
      that waited for it reusable, which now depends on something invalidated. */
  lemma WaitingBecomesReusable(h: Bytes -> Digest)
    ensures AllReturn(h, WAITING)
    ensures var s := After(h, WAITING);
      && 1 in s.artifacts && s.artifacts[1].lifecycle == INVALIDATED && DependsOn(s.graph, 3, 1)
      && ReusableIn(s, 3, ANYTHING) && !EverReusable(s, 2)
  {
    hide After, AllReturn, Do, WellFormed, Edge, DependsOn, Fits, ReusableIn, Chargeable, EverReusable, Founded;
    OneInvalidated(h);
    OneTarget(On(1));
    var s := After(h, WAITING[..3]);
    OneEdge(s.graph);
    NothingCharged(h, WAITING[..3], h([]));
    ThreeNodes(s.graph.nodes);
    PlainReturns(h, s, 2, 0, 1, [On(1)], []);
    OneMore(h, WAITING[..3], WAITING[3]);
    assert WAITING[..3] + [WAITING[3]] == WAITING;
    var t := After(h, WAITING);
    assert Edge(t.graph, 3, 2) && Edge(t.graph, 2, 1);
    TwoSteps(t.graph, 3, 2, 1);
    FreshEnough(t, 3, 2);
    StaleFirst(t);
  }

  lemma ThreeNodes(nodes: set<Id>)
    requires nodes == {1, 2, 3}
    ensures |nodes| == 3
  {
  }

  lemma StaleFirst(s: State)
    requires 1 in s.artifacts && s.artifacts[1].lifecycle == INVALIDATED && 2 in s.artifacts
    requires s.artifacts[2].dependencies == [On(1)]
    ensures !EverReusable(s, 2)
  {
    hide Standing;
    EverReusableIff(s, 2);
    OneTarget(On(1));
    assert 1 in Targets(s.artifacts[2].dependencies);
  }
}
