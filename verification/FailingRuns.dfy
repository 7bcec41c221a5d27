/** Short runs that show what the program does where its names and documentation promise
    otherwise, and that the hypotheses of the theorems about runs can be met. */
module FailingRuns {
  import opened Types
  import opened Collections
  import opened Lifecycle
  import opened Accounting
  import opened GraphModel
  import opened DescriptorFormat
  import opened Derivation
  import opened CatalogModel
  import opened Invalidation
  import opened CatalogEffects
  import opened CatalogRuns
  import opened CounterGuards
  import opened Publications
  import opened Compatibility
  import opened Reuse
  import opened Safety
  import opened Reusability
  import opened References
  import opened Ledger
  import opened Recovery
  import opened CatalogImage
  import Coordination

  // ---- plain requests -------------------------------------------------------------------

  /** The authority of a new catalog: epoch 0 and the zero boot identifier. */
  const ME := Authority(0, 0, 0, 0, 0, 0, 0, 0, 0, 0, 0, 0, 0, 0)

  function Plain(id: Id, size: U64, provenance: Id, deps: seq<DependencyRef>): Descriptor {
    Descriptor(id, 0, 1, 0, 0, 0, provenance, 0, 0, None, None, None, None, None, None, None, None, 0,
               [], [], [], [], [], [], [], deps, 0, 0, 0, [], 0, UNVALIDATED, DECLARED, [], size, [], [])
  }

  function On(x: Id): DependencyRef { DependencyRef(x, 0, 0, 0, 0) }

  function Pub(id: Id, size: U64, provenance: Id, deps: seq<DependencyRef>, content: Bytes): Call {
    Publish(PublishRequest(Plain(id, size, provenance, deps), content, ME))
  }

  /** What publishing a plain request does. */
  ghost predicate Entered(h: Bytes -> Digest, s: State, t: State, id: Id, size: U64, provenance: Id,
                          deps: seq<DependencyRef>, content: Bytes) {
    && id in t.artifacts && t.artifacts == s.artifacts[id := t.artifacts[id]]
    && t.artifacts[id] == Plain(id, size, provenance, deps).(
         contentDigest := h(content), dependencyDigest := t.artifacts[id].dependencyDigest,
         metadataDigest := t.artifacts[id].metadataDigest, compatibilityDigest := t.artifacts[id].compatibilityDigest,
         validation := INTEGRITY_OK, lifecycle := PUBLISHED)
    && t.store == Stored(s.store, h(content), content)
    && t.epoch == s.epoch && t.boot == s.boot && t.successors == s.successors
    && t.graph.nodes == s.graph.nodes + {id} + Elements(Targets(deps)) && Extended(s.graph, t.graph, id, deps)
    && t.counters.logicalBytes == s.counters.logicalBytes + ToI64(size)
    && t.counters.activeReferences == s.counters.activeReferences + 1
    && (h(content) !in s.store ==>
          && t.counters.physicalBytes == s.counters.physicalBytes + (if size != 0 then ToI64(size) else |content|)
          && t.counters.physicalBacking == s.counters.physicalBacking + 1)
    && (h(content) in s.store ==>
          t.counters.physicalBytes == s.counters.physicalBytes && t.counters.physicalBacking == s.counters.physicalBacking)
  }

  lemma PlainLimits(id: Id, size: U64, provenance: Id, deps: seq<DependencyRef>)
    requires |deps| <= 1
    ensures Encodable(Plain(id, size, provenance, deps))
  {
  }

  /** An identifier the graph does not know fits whatever distinct dependencies it names. */
  lemma NewFits(g: Graph, id: Id, deps: seq<DependencyRef>)
    requires Valid(g) && id !in g.nodes && |deps| <= 1 && (deps != [] ==> deps[0].artifact != id)
    ensures Fits(g, id, deps) && Direct(g, id) == []
  {
    forall t | t in Targets(deps) ensures FitsOne(g, id, t) {
      if DependsOn(g, t, id) { DependsOnNode(g, t, id); }
      assert Direct(g, id) == [];
    }
  }

  lemma NewNode(s: State, id: Id, deps: seq<DependencyRef>)
    requires WellFormed(s) && id !in s.graph.nodes && |deps| <= 1 && (deps != [] ==> deps[0].artifact != id)
    ensures Fits(s.graph, id, deps) && Direct(s.graph, id) == []
  {
    GraphOf(s);
    NewFits(s.graph, id, deps);
  }

  lemma PlainReturns(h: Bytes -> Digest, s: State, id: Id, size: U64, provenance: Id, deps: seq<DependencyRef>, content: Bytes)
    requires WellFormed(s) && s.epoch == 0 && s.boot == 0 && id != 0 && id !in s.artifacts
    requires |deps| <= 1 && Fits(s.graph, id, deps) && Direct(s.graph, id) == [] && |s.graph.nodes| < 100
    requires Chargeable(s, h(content), if size != 0 then ToI64(size) else |content|)
    requires s.counters.logicalBytes + ToI64(size) >= 0 && s.counters.activeReferences >= 0
    ensures Do(h, s, Pub(id, size, provenance, deps, content)).0.Returned?
    ensures Entered(h, s, Do(h, s, Pub(id, size, provenance, deps, content)).1, id, size, provenance, deps, content)
  {
    hide WellFormed, Valid, PublishLocked, Fits, Encodable, Chargeable, Published, Entered, Completed, ToI64;
    var req := PublishRequest(Plain(id, size, provenance, deps), content, ME);
    PlainLimits(id, size, provenance, deps);
    LimitsText(req.descriptor);
    CompletedFields(h, s.nextGeneration, req);
    FewNodes(s.graph.nodes, id, deps);
    PublishReturnsIff(h, s, req);
    var d := Completed(h, s.nextGeneration, req);
    LockedReturnsIff(h, s, req, d);
    PublishEffect(h, s, req, d);
    PubIs(h, s, req);
    EnteredFrom(h, s, PublishLocked(h, s, req, d).1, id, size, provenance, deps, content);
  }

  lemma PubIs(h: Bytes -> Digest, s: State, req: PublishRequest)
    requires WellFormed(s) && Fence(s.epoch, s.boot, req.authority).Returned? && TextFits(req.descriptor)
    ensures Do(h, s, Publish(req)) == PublishLocked(h, s, req, Completed(h, s.nextGeneration, req))
  {
    hide WellFormed, PublishLocked, DeriveId;
    CompletedFields(h, s.nextGeneration, req);
  }

  lemma FewNodes(nodes: set<Id>, id: Id, deps: seq<DependencyRef>)
    requires |deps| <= 1
    ensures |nodes + {id} + Elements(Targets(deps))| <= |nodes| + 2
  {
    if deps == [] {
      assert Elements(Targets(deps)) == {};
    } else {
      assert Elements(Targets(deps)) == {deps[0].artifact};
    }
  }

  lemma EnteredFrom(h: Bytes -> Digest, s: State, t: State, id: Id, size: U64, provenance: Id, deps: seq<DependencyRef>,
                    content: Bytes)
    requires WellFormed(s) && Direct(s.graph, id) == [] && id in t.artifacts
    requires var e := t.artifacts[id];
      e == Plain(id, size, provenance, deps).(
        contentDigest := h(content), dependencyDigest := e.dependencyDigest, metadataDigest := e.metadataDigest,
        compatibilityDigest := e.compatibilityDigest, validation := INTEGRITY_OK, lifecycle := PUBLISHED)
    requires Published(h, s, t, PublishRequest(Plain(id, size, provenance, deps), content, ME), t.artifacts[id])
    ensures Entered(h, s, t, id, size, provenance, deps, content)
  {
    hide Encodable, Stored, ToI64, Link, Extended;
    LinkEffect(s.graph, id, deps);
    PublishExtends(s.graph, id, deps);
  }

  lemma OneMore(h: Bytes -> Digest, calls: seq<Call>, c: Call)
    requires AllReturn(h, calls) && Do(h, After(h, calls), c).0.Returned?
    ensures AllReturn(h, calls + [c]) && After(h, calls + [c]) == Do(h, After(h, calls), c).1
  {
    hide Do;
    assert (calls + [c])[..|calls|] == calls;
  }

  lemma NoCalls(h: Bytes -> Digest)
    ensures AllReturn(h, []) && After(h, []) == NEW_CATALOG && WellFormed(NEW_CATALOG)
  {
    NewIsWellFormed();
  }

  /** A first publication of a small size returns. */
  lemma FirstPublished(h: Bytes -> Digest, size: U64, provenance: Id, content: Bytes)
    requires size < 0x8000_0000_0000_0000
    ensures var calls := [Pub(1, size, provenance, [], content)];
      AllReturn(h, calls) && Entered(h, NEW_CATALOG, After(h, calls), 1, size, provenance, [], content)
  {
    hide AllReturn, After, WellFormed, Entered, Do;
    NoCalls(h);
    NewNode(NEW_CATALOG, 1, []);
    PlainReturns(h, NEW_CATALOG, 1, size, provenance, [], content);
    OneMore(h, [], Pub(1, size, provenance, [], content));
    assert [] + [Pub(1, size, provenance, [], content)] == [Pub(1, size, provenance, [], content)];
  }

  // ---- reusable although built on something invalidated ---------------------------------

  /** An artifact; its invalidation; an artifact built on it; and one built on that. */
  const ON_INVALIDATED := [
    Pub(1, 0, 1, [], []), Invalidate(1, [], ME), Pub(2, 0, 1, [On(1)], []), Pub(3, 0, 1, [On(2)], [])]

  lemma NoEdges(g: Graph, e: Id)
    requires forall a, b :: !Edge(g, a, b)
    ensures forall x :: !DependsOn(g, x, e)
  {
    hide Edge;
  }

  lemma NobodyDepends(g: Graph, e: Id)
    requires forall x :: !DependsOn(g, x, e)
    ensures Dependents(g, e) == {}
  {
    hide DependsOn;
  }

  lemma InvalidateIs(h: Bytes -> Digest, s: State, id: Id)
    requires WellFormed(s) && s.epoch == 0 && s.boot == 0
    ensures Do(h, s, Invalidate(id, [], ME)) == InvalidateLocked(s, id, [], ME)
  {
    hide WellFormed, InvalidateLocked, PublishLocked, RetireLocked, Complete;
  }

  /** Invalidating an artifact nothing depends on. */
  lemma InvalidateAlone(h: Bytes -> Digest, s: State, id: Id)
    requires WellFormed(s) && s.epoch == 0 && s.boot == 0 && id in s.artifacts && s.artifacts[id].lifecycle == PUBLISHED
    requires forall x :: !DependsOn(s.graph, x, id)
    ensures Do(h, s, Invalidate(id, [], ME)) == (Returned(()), MarkAll(s, {id}, []))
  {
    hide WellFormed, MarkAll, InvalidateFrom, Edge, DependsOn, Dependents, PublishLocked, RetireLocked, SupersedeLocked,
      QuarantineLocked, RegisterLocked, ValidateLocked, Complete, CanTransition, InvalidateLocked;
    InvalidateIs(h, s, id);
    InvalidationIsExact(s, id, [], ME);
    NobodyDepends(s.graph, id);
    assert Hit(s, id) == {id};
    UnitOutcome(InvalidateLocked(s, id, [], ME).0);
  }

  /** After the first two calls: one artifact, INVALIDATED, and no edges. */
  lemma FirstTwo(h: Bytes -> Digest)
    ensures AllReturn(h, ON_INVALIDATED[..2])
    ensures var s := After(h, ON_INVALIDATED[..2]);
      && s.artifacts.Keys == {1} && s.artifacts[1].lifecycle == INVALIDATED && s.graph.nodes == {1}
      && s.epoch == 0 && s.boot == 0 && s.counters.logicalBytes == 0
  {
    hide After, AllReturn, Do, WellFormed, CanTransition;
    var c1, c2 := ON_INVALIDATED[0], ON_INVALIDATED[1];
    FirstPublished(h, 0, 1, []);
    var s := After(h, [c1]);
    assert Targets([]) == [] && Elements(Targets([])) == {};
    assert forall a, b :: !Edge(EMPTY, a, b);
    NoEdges(s.graph, 1);
    InvalidateAlone(h, s, 1);
    OneMore(h, [c1], c2);
    assert [c1] + [c2] == ON_INVALIDATED[..2];
  }

  /** A publication of nothing never meets a counter. */
  lemma NothingCharged(h: Bytes -> Digest, calls: seq<Call>, cd: Digest)
    ensures Chargeable(After(h, calls), cd, 0) && After(h, calls).counters.activeReferences >= 0
  {
    hide After;
    GuardedNeverNegative(h, calls);
  }

  /** The freshness check does not see it: the artifact is reported reusable although it
      depends on one that was invalidated before it was published. */
  lemma ReusableOnInvalidated(h: Bytes -> Digest)
    ensures AllReturn(h, ON_INVALIDATED)
    ensures var s := After(h, ON_INVALIDATED);
      && 1 in s.artifacts && s.artifacts[1].lifecycle == INVALIDATED && DependsOn(s.graph, 3, 1)
      && ReusableIn(s, 3, ANYTHING)
  {
    hide After, AllReturn, Do, WellFormed, Chargeable, CanTransition, ReusableIn, DependsOn, Edge;
    FirstTwo(h);
    var p2, c3, c4 := ON_INVALIDATED[..2], ON_INVALIDATED[2], ON_INVALIDATED[3];
    var s2 := After(h, p2);
    NothingCharged(h, p2, h([]));
    assert s2.graph.nodes == {1};
    NewNode(s2, 2, [On(1)]);
    PlainReturns(h, s2, 2, 0, 1, [On(1)], []);
    OneMore(h, p2, c3);
    var p3 := p2 + [c3];
    var s3 := After(h, p3);
    NothingCharged(h, p3, h([]));
    OneTarget(On(1));
    OneTarget(On(2));
    assert s3.graph.nodes == {1, 2};
    NewNode(s3, 3, [On(2)]);
    PlainReturns(h, s3, 3, 0, 1, [On(2)], []);
    OneMore(h, p3, c4);
    assert p3 + [c4] == ON_INVALIDATED;
    var s4 := After(h, ON_INVALIDATED);
    assert Edge(s4.graph, 3, 2) && Edge(s4.graph, 2, 1);
    TwoSteps(s4.graph, 3, 2, 1);
    FreshEnough(s4, 3, 2);
  }

  lemma OneTarget(dep: DependencyRef)
    ensures Targets([dep]) == [dep.artifact] && Elements(Targets([dep])) == {dep.artifact}
  {
    assert Targets([dep]) == [dep.artifact];
  }

  lemma TwoSteps(g: Graph, a: Id, b: Id, c: Id)
    requires Edge(g, a, b) && Edge(g, b, c)
    ensures DependsOn(g, a, c)
  {
    EdgeDepends(g, a, b);
    EdgeDepends(g, b, c);
    DependsReaches(g, b, c);
    DependsThenReaches(g, a, b, c);
  }

  /** A plain artifact with a provenance whose only dependency is published is reusable. */
  lemma FreshEnough(s: State, id: Id, dep: Id)
    requires id in s.artifacts && dep in s.artifacts && s.artifacts[dep].lifecycle == PUBLISHED
    requires var d := s.artifacts[id];
      && d.lifecycle == PUBLISHED && d.validation == INTEGRITY_OK && d.provenance != 0 && d.placements == []
      && d.dependencies == [On(dep)]
    ensures ReusableIn(s, id, ANYTHING)
  {
    var d := s.artifacts[id];
    ReusableIff(d, ANYTHING, InputsFor(s.artifacts, d));
  }

  // ---- throwing calls -------------------------------------------------------------------

  const REGISTERED := [Register(Plain(5, 0, 0, []), ME)]

  lemma Registered(h: Bytes -> Digest)
    ensures AllReturn(h, REGISTERED)
    ensures After(h, REGISTERED) == NEW_CATALOG.(
              nextGeneration := 2, artifacts := map[5 := Plain(5, 0, 0, [])], indexed := {5})
  {
    hide AllReturn, After, WellFormed;
    NoCalls(h);
    OneMore(h, [], REGISTERED[0]);
    assert [] + [REGISTERED[0]] == REGISTERED;
  }

  /** Registering an artifact and promoting it at once throws, and the artifact is gone from the
      index of its kind. */
  lemma PromoteLosesEntry(h: Bytes -> Digest)
    ensures Do(h, After(h, REGISTERED), Promote(5, ME)).0 == Threw(IllegalTransition)
    ensures 5 in Lookup(After(h, REGISTERED), KindKey(0)) && 5 in After(h, REGISTERED + [Promote(5, ME)]).artifacts
    ensures 5 !in Lookup(After(h, REGISTERED + [Promote(5, ME)]), KindKey(0))
  {
    hide AllReturn, After, WellFormed;
    Registered(h);
    AfterOne(h, REGISTERED, Promote(5, ME));
  }

  /** Reporting success on a published artifact throws; reporting failure on a registered one
      is the case that returns. */
  lemma ValidatingThrows(h: Bytes -> Digest)
    ensures AllReturn(h, [Pub(1, 0, 1, [], [])])
    ensures Do(h, After(h, [Pub(1, 0, 1, [], [])]), Validate(1, Report(VALIDATED, []), ME)).0 == Threw(IllegalTransition)
    ensures Do(h, After(h, REGISTERED), Validate(5, Report(INVALID, []), ME)).0.Returned?
  {
    hide AllReturn, After, WellFormed, Extended, Stored, ToI64, PublishLocked, RetireLocked, InvalidateLocked, Complete;
    FirstPublished(h, 0, 1, []);
    Registered(h);
  }

  // ---- negative counters ----------------------------------------------------------------

  /** Retiring an artifact that was registered and never published makes the count of artifacts
      negative. */
  lemma NegativeArtifacts(h: Bytes -> Digest)
    ensures After(h, REGISTERED + [Retire(5, ME)]).counters.logicalArtifacts == -1
  {
    hide AllReturn, After, WellFormed;
    Registered(h);
    AfterOne(h, REGISTERED, Retire(5, ME));
  }

  const TEN: Bytes := [0, 0, 0, 0, 0, 0, 0, 0, 0, 0]

  /** Two artifacts in turn with the same content of ten bytes, each declaring one byte; both
      retirements throw. */
  const UNDERSTATED := [Pub(1, 1, 1, [], TEN), Retire(1, ME), Pub(2, 1, 1, [], TEN), Retire(2, ME)]

  /** Retiring the last holder of a content that was charged less than its length. */
  lemma RetireUnderstated(h: Bytes -> Digest, s: State, id: Id)
    requires WellFormed(s) && s.epoch == 0 && s.boot == 0 && id in s.artifacts && s.artifacts[id].lifecycle == PUBLISHED
    requires var cd := s.artifacts[id].contentDigest;
      cd in s.store && s.store[cd].references == 1 && s.counters.physicalBytes < |s.store[cd].bytes|
    ensures var cd := s.artifacts[id].contentDigest; var (r, t) := Do(h, s, Retire(id, ME));
      && r == Threw(NegativeCounter)
      && t == s.(artifacts := s.artifacts[id := s.artifacts[id].(lifecycle := RETIRED)], indexed := s.indexed - {id},
                 store := s.store[cd := s.store[cd].(references := 0)],
                 counters := s.counters.(physicalBacking := s.counters.physicalBacking - 1))
  {
    hide WellFormed, PublishLocked, InvalidateLocked, Complete;
  }

  /** The count of contents becomes negative. */
  lemma NegativeBacking(h: Bytes -> Digest)
    ensures After(h, UNDERSTATED).counters.physicalBacking < 0
  {
    hide AllReturn, After, WellFormed, Do, Extended, CanTransition;
    var p1, p2, p3 := UNDERSTATED[..1], UNDERSTATED[..2], UNDERSTATED[..3];
    FirstPublished(h, 1, 1, TEN);
    assert p1 == [Pub(1, 1, 1, [], TEN)];
    var s1 := After(h, p1);
    RetireUnderstated(h, s1, 1);
    AfterOne(h, p1, UNDERSTATED[1]);
    assert p1 + [UNDERSTATED[1]] == p2;
    var s2 := After(h, p2);
    NoTargets();
    NewNode(s2, 2, []);
    PlainReturns(h, s2, 2, 1, 1, [], TEN);
    AfterOne(h, p2, UNDERSTATED[2]);
    assert p2 + [UNDERSTATED[2]] == p3;
    var s3 := After(h, p3);
    AfterOne(h, p3, UNDERSTATED[3]);
    assert p3 + [UNDERSTATED[3]] == UNDERSTATED;
    PublishedCanRetire();
    NegativeIff(h, s3, UNDERSTATED[3]);
  }

  lemma NoTargets()
    ensures Targets([]) == [] && Elements(Targets([])) == {}
  {
  }

  lemma PublishedCanRetire()
    ensures CanTransition(PUBLISHED, RETIRED)
  {
  }

  // ---- an image that does not load ------------------------------------------------------

  const MINUS_FIVE: U64 := 0xffff_ffff_ffff_fffb

  /** Declared sizes of 2^64 - 5, which are -5 once they are signed: one of them is retired, and
      so leaves the counters but not the catalog. */
  const NEGATIVE_SIZES := [
    Pub(1, 0, 1, [], TEN), Pub(2, 5, 1, [], [1]), Pub(3, MINUS_FIVE, 1, [], []), Retire(3, ME),
    Pub(4, MINUS_FIVE, 1, [], [2])]

  /** Retiring the only holder of a content returns when the counters allow it. */
  lemma RetireOnly(h: Bytes -> Digest, s: State, id: Id)
    requires WellFormed(s) && s.epoch == 0 && s.boot == 0 && id in s.artifacts && s.artifacts[id].lifecycle == PUBLISHED
    requires var d := s.artifacts[id]; var cd := d.contentDigest;
      && cd in s.store && s.store[cd].references == 1 && s.counters.physicalBytes >= |s.store[cd].bytes|
      && s.counters.logicalBytes - ToI64(d.sizeBytes) >= 0 && s.counters.activeReferences >= 1
    ensures Do(h, s, Retire(id, ME)).0.Returned? && RetiredOne(s, Do(h, s, Retire(id, ME)).1, id)
  {
    hide WellFormed, PublishLocked, InvalidateLocked, Complete, RetiredOne, ToI64;
    RetireEffect(s, id);
  }

  /** Where a run of these calls stands. */
  ghost predicate Stands(s: State, ids: set<Id>, digests: set<Digest>, logical: int, physical: int, active: int) {
    && s.artifacts.Keys == ids && s.graph.nodes == ids && s.store.Keys == digests
    && s.successors == map[] && s.epoch == 0 && s.boot == 0
    && s.counters.logicalBytes == logical && s.counters.physicalBytes == physical && s.counters.activeReferences == active
  }

  lemma StandsNext(h: Bytes -> Digest, s: State, t: State, id: Id, size: U64, content: Bytes,
                   ids: set<Id>, digests: set<Digest>, logical: int, physical: int, active: int)
    requires Stands(s, ids, digests, logical, physical, active) && Entered(h, s, t, id, size, 1, [], content)
    requires h(content) !in digests
    ensures var charged := if size != 0 then ToI64(size) else |content|;
      Stands(t, ids + {id}, digests + {h(content)}, logical + ToI64(size), physical + charged, active + 1)
  {
    hide Extended, ToI64;
    NoTargets();
    assert t.artifacts.Keys == s.artifacts.Keys + {id};
    assert t.store.Keys == s.store.Keys + {h(content)};
  }

  lemma StandsReady(h: Bytes -> Digest, s: State, id: Id, size: U64, content: Bytes,
                    ids: set<Id>, digests: set<Digest>, logical: int, physical: int, active: int)
    requires WellFormed(s) && Stands(s, ids, digests, logical, physical, active) && |ids| < 100
    requires id != 0 && id !in ids && h(content) !in digests && active >= 0
    requires var charged := if size != 0 then ToI64(size) else |content|;
      physical + charged >= 0 && logical + ToI64(size) >= 0
    ensures Do(h, s, Pub(id, size, 1, [], content)).0.Returned?
    ensures Entered(h, s, Do(h, s, Pub(id, size, 1, [], content)).1, id, size, 1, [], content)
  {
    hide WellFormed, Do, Entered, ToI64;
    NewNode(s, id, []);
    PlainReturns(h, s, id, size, 1, [], content);
  }

  /** One more publication of a new content. */
  lemma StandsAfter(h: Bytes -> Digest, calls: seq<Call>, c: Call, id: Id, size: U64, content: Bytes,
                    ids: set<Id>, digests: set<Digest>, logical: int, physical: int, active: int)
    requires AllReturn(h, calls) && Stands(After(h, calls), ids, digests, logical, physical, active) && |ids| < 100
    requires c == Pub(id, size, 1, [], content) && id != 0 && id !in ids && h(content) !in digests && active >= 0
    requires var charged := if size != 0 then ToI64(size) else |content|;
      physical + charged >= 0 && logical + ToI64(size) >= 0
    ensures AllReturn(h, calls + [c])
    ensures Entered(h, After(h, calls), After(h, calls + [c]), id, size, 1, [], content)
    ensures var charged := if size != 0 then ToI64(size) else |content|;
      Stands(After(h, calls + [c]), ids + {id}, digests + {h(content)}, logical + ToI64(size), physical + charged, active + 1)
  {
    hide AllReturn, After, WellFormed, Do, Stands, Entered, ToI64;
    StandsReady(h, After(h, calls), id, size, content, ids, digests, logical, physical, active);
    OneMore(h, calls, c);
    StandsNext(h, After(h, calls), After(h, calls + [c]), id, size, content, ids, digests, logical, physical, active);
  }

  /** What three publications in turn entered. */
  lemma ThreeEntered(h: Bytes -> Digest, s: State, t: State, u: State, v: State)
    requires Entered(h, s, t, 1, 0, 1, [], TEN) && Entered(h, t, u, 2, 5, 1, [], [1])
    requires Entered(h, u, v, 3, MINUS_FIVE, 1, [], []) && h([]) !in u.store
    ensures {1 as Id, 2, 3} <= v.artifacts.Keys && v.artifacts[3].lifecycle == PUBLISHED && v.artifacts[3].contentDigest == h([])
    ensures v.artifacts[1].sizeBytes == 0 && v.artifacts[2].sizeBytes == 5 && v.artifacts[3].sizeBytes == MINUS_FIVE
    ensures h([]) in v.store && v.store[h([])] == Content([], 1)
  {
    hide Extended;
  }

  lemma FirstStands(h: Bytes -> Digest)
    ensures var p1 := NEGATIVE_SIZES[..1];
      && AllReturn(h, p1) && Entered(h, NEW_CATALOG, After(h, p1), 1, 0, 1, [], TEN)
      && Stands(After(h, p1), {1}, {h(TEN)}, 0, 10, 1)
  {
    hide AllReturn, After, WellFormed, Entered, Stands;
    NewStands();
    FirstPublished(h, 0, 1, TEN);
    assert [NEGATIVE_SIZES[0]] == NEGATIVE_SIZES[..1];
    StandsNext(h, NEW_CATALOG, After(h, NEGATIVE_SIZES[..1]), 1, 0, TEN, {}, {}, 0, 0, 0);
    assert {} + {1 as Id} == {1} && {} + {h(TEN)} == {h(TEN)};
  }

  lemma SecondStands(h: Bytes -> Digest)
    requires h([1]) != h(TEN)
    ensures var p1, p2 := NEGATIVE_SIZES[..1], NEGATIVE_SIZES[..2];
      && AllReturn(h, p2) && Entered(h, After(h, p1), After(h, p2), 2, 5, 1, [], [1])
      && Stands(After(h, p2), {1, 2}, {h(TEN), h([1])}, 5, 15, 2)
  {
    hide AllReturn, After, WellFormed, Entered, Stands;
    FirstStands(h);
    assert NEGATIVE_SIZES[..1] + [NEGATIVE_SIZES[1]] == NEGATIVE_SIZES[..2];
    StandsAfter(h, NEGATIVE_SIZES[..1], NEGATIVE_SIZES[1], 2, 5, [1], {1}, {h(TEN)}, 0, 10, 1);
    assert {1 as Id} + {2} == {1, 2} && {h(TEN)} + {h([1])} == {h(TEN), h([1])};
  }

  lemma ThirdStands(h: Bytes -> Digest)
    requires h([1]) != h(TEN) && h([]) != h(TEN) && h([]) != h([1])
    ensures var p2, p3 := NEGATIVE_SIZES[..2], NEGATIVE_SIZES[..3];
      && AllReturn(h, p3) && Entered(h, After(h, p2), After(h, p3), 3, MINUS_FIVE, 1, [], [])
      && Stands(After(h, p3), {1, 2, 3}, {h(TEN), h([1]), h([])}, 0, 10, 3)
  {
    hide AllReturn, After, WellFormed, Entered, Stands;
    SecondStands(h);
    assert NEGATIVE_SIZES[..2] + [NEGATIVE_SIZES[2]] == NEGATIVE_SIZES[..3];
    StandsAfter(h, NEGATIVE_SIZES[..2], NEGATIVE_SIZES[2], 3, MINUS_FIVE, [], {1, 2}, {h(TEN), h([1])}, 5, 15, 2);
    assert {1 as Id, 2} + {3} == {1, 2, 3} && {h(TEN), h([1])} + {h([])} == {h(TEN), h([1]), h([])};
  }

  /** After the first three calls. */
  lemma ThreeSizes(h: Bytes -> Digest)
    requires CollisionFree(h, {TEN, [1], [], [2]})
    ensures AllReturn(h, NEGATIVE_SIZES[..3])
    ensures var s := After(h, NEGATIVE_SIZES[..3]);
      && Stands(s, {1, 2, 3}, {h(TEN), h([1]), h([])}, 0, 10, 3) && {1 as Id, 2, 3} <= s.artifacts.Keys
      && h([]) in s.store && s.store[h([])] == Content([], 1)
      && s.artifacts[3].lifecycle == PUBLISHED && s.artifacts[3].contentDigest == h([])
      && s.artifacts[1].sizeBytes == 0 && s.artifacts[2].sizeBytes == 5 && s.artifacts[3].sizeBytes == MINUS_FIVE
  {
    hide AllReturn, After, WellFormed, Entered, Stands;
    Distinguished(h);
    FirstStands(h);
    SecondStands(h);
    ThirdStands(h);
    StoredDigests(After(h, NEGATIVE_SIZES[..2]), {1, 2}, {h(TEN), h([1])}, 5, 15, 2);
    ThreeEntered(h, NEW_CATALOG, After(h, NEGATIVE_SIZES[..1]), After(h, NEGATIVE_SIZES[..2]), After(h, NEGATIVE_SIZES[..3]));
  }

  lemma NewStands()
    ensures Stands(NEW_CATALOG, {}, {}, 0, 0, 0)
  {
  }

  lemma StoredDigests(s: State, ids: set<Id>, digests: set<Digest>, logical: int, physical: int, active: int)
    requires Stands(s, ids, digests, logical, physical, active)
    ensures s.store.Keys == digests
  {
  }

  lemma Distinguished(h: Bytes -> Digest)
    requires CollisionFree(h, {TEN, [1], [], [2]})
    ensures h(TEN) != h([1]) && h(TEN) != h([]) && h([1]) != h([]) && h([2]) != h(TEN) && h([2]) != h([1])
  {
    assert TEN != [1] && TEN != [2] && [1] != [2];
  }

  lemma FourSizes(h: Bytes -> Digest)
    requires CollisionFree(h, {TEN, [1], [], [2]})
    ensures AllReturn(h, NEGATIVE_SIZES[..4])
    ensures var s := After(h, NEGATIVE_SIZES[..4]);
      && Stands(s, {1, 2, 3}, {h(TEN), h([1])}, 5, 10, 2) && {1 as Id, 2, 3} <= s.artifacts.Keys
      && s.artifacts[1].sizeBytes == 0 && s.artifacts[2].sizeBytes == 5 && s.artifacts[3].sizeBytes == MINUS_FIVE
  {
    hide AllReturn, After, WellFormed, Do, CanTransition;
    ThreeSizes(h);
    Distinguished(h);
    var p3 := NEGATIVE_SIZES[..3];
    RetireOnly(h, After(h, p3), 3);
    OneMore(h, p3, NEGATIVE_SIZES[3]);
    assert p3 + [NEGATIVE_SIZES[3]] == NEGATIVE_SIZES[..4];
  }

  lemma AllSizes(h: Bytes -> Digest)
    requires CollisionFree(h, {TEN, [1], [], [2]})
    ensures AllReturn(h, NEGATIVE_SIZES)
    ensures var s := After(h, NEGATIVE_SIZES);
      SignedSizes(s.artifacts) == map[1 := 0, 2 := 5, 3 := -5, 4 := -5] && |s.graph.nodes| == 4 && s.successors == map[]
  {
    hide AllReturn, After, WellFormed, Entered, Stands;
    FourSizes(h);
    Distinguished(h);
    var p4 := NEGATIVE_SIZES[..4];
    assert p4 + [NEGATIVE_SIZES[4]] == NEGATIVE_SIZES;
    StandsAfter(h, p4, NEGATIVE_SIZES[4], 4, MINUS_FIVE, [2], {1, 2, 3}, {h(TEN), h([1])}, 5, 10, 2);
    LastSizes(h, After(h, p4), After(h, NEGATIVE_SIZES));
  }

  lemma LastSizes(h: Bytes -> Digest, s: State, t: State)
    requires Stands(s, {1, 2, 3}, {h(TEN), h([1])}, 5, 10, 2) && Entered(h, s, t, 4, MINUS_FIVE, 1, [], [2])
    requires s.artifacts[1].sizeBytes == 0 && s.artifacts[2].sizeBytes == 5 && s.artifacts[3].sizeBytes == MINUS_FIVE
    ensures SignedSizes(t.artifacts) == map[1 := 0, 2 := 5, 3 := -5, 4 := -5] && |t.graph.nodes| == 4 && t.successors == map[]
  {
    hide Extended;
    NoTargets();
    assert t.graph.nodes == {1, 2, 3, 4};
    assert t.artifacts.Keys == {1, 2, 3, 4};
  }

  lemma MinusFive(m: map<Id, int>)
    requires m == map[1 := 0, 2 := 5, 3 := -5, 4 := -5]
    ensures Total(m) == -5
  {
    hide Total;
    TotalRemove(m, 4);
    var k := m - {4};
    TotalRemove(k, 3);
    var j := k - {3};
    TotalRemove(j, 2);
    var i := j - {2};
    TotalRemove(i, 1);
    assert i - {1} == map[];
    TotalOfNone(i - {1});
  }

  lemma TotalOfNone(m: map<Id, int>)
    requires m == map[]
    ensures Total(m) == 0
  {
  }

  /** The catalog is saved, and its image does not load. */
  ghost predicate SavedNotLoaded(s: State, target: State)
    requires WellFormed(target)
  {
    Save(s).Returned? && Load(target, Save(s).value).0.Threw?
  }

  /** Calls that all return can leave a catalog that is saved and cannot be loaded. */
  lemma ReturningRunNotLoaded(h: Bytes -> Digest, target: State)
    requires CollisionFree(h, {TEN, [1], [], [2]}) && WellFormed(target)
    ensures AllReturn(h, NEGATIVE_SIZES) && SavedNotLoaded(After(h, NEGATIVE_SIZES), target)
  {
    hide AllReturn, After, WellFormed, Save, Load, SignedSizes, Total, Recovered, SameAnswers, CollisionFree;
    AllSizes(h);
    MinusFive(SignedSizes(After(h, NEGATIVE_SIZES).artifacts));
    FourContents();
    RecoveryIsExact(h, NEGATIVE_SIZES, target);
  }

  lemma FourContents()
    ensures AllFinite(NEGATIVE_SIZES) && NoRegister(NEGATIVE_SIZES) && SmallContents(Contents(NEGATIVE_SIZES))
  {
  }

  // ---- two artifacts of one generation --------------------------------------------------

  /** A request that leaves its generation open. */
  function Open(id: Id): PublishRequest {
    PublishRequest(Plain(id, 0, 1, []).(generation := 0), [], ME)
  }

  lemma OpenLimits(h: Bytes -> Digest, id: Id, next: U64)
    requires id != 0
    ensures var d := Plain(id, 0, 1, []).(generation := next, contentDigest := h([]));
      Complete(h, next, Open(id)) == Returned(d) && Encodable(d)
  {
  }

  lemma OpenReturns(h: Bytes -> Digest, s: State, id: Id, next: U64)
    requires WellFormed(s) && id != 0 && id !in s.artifacts && id !in s.graph.nodes && |s.graph.nodes| < 100
    requires NonNegative(s.counters) && next < U64_MAX
    ensures var (r, t) := Locked(h, s, Publish(Open(id)), next);
      && r.Returned? && t.artifacts.Keys == s.artifacts.Keys + {id} && t.graph.nodes == s.graph.nodes + {id}
      && NonNegative(t.counters)
  {
    hide WellFormed, Valid, PublishLocked, Encodable, Complete, Published;
    OpenLimits(h, id, next);
    var d := Complete(h, next, Open(id)).value;
    GraphOf(s);
    NewFits(s.graph, id, []);
    FewNodes(s.graph.nodes, id, []);
    LockedReturnsIff(h, s, Open(id), d);
    PublishEffect(h, s, Open(id), d);
    PublishNotLower(h, s, Open(id), d);
    OpenEntered(h, s, PublishLocked(h, s, Open(id), d).1, id);
  }

  lemma NoEdgesOut(g: Graph, id: Id)
    requires Valid(g) && id !in g.nodes
    ensures Direct(g, id) == []
  {
  }

  lemma OpenEntered(h: Bytes -> Digest, s: State, t: State, id: Id)
    requires WellFormed(s) && id !in s.graph.nodes && id in t.artifacts
    requires Published(h, s, t, Open(id), t.artifacts[id]) && t.artifacts[id].id == id
    ensures t.artifacts.Keys == s.artifacts.Keys + {id} && t.graph.nodes == s.graph.nodes + {id}
  {
    hide Encodable, Stored, ToI64, Link, Valid, Direct, Elements, Targets, ChargedSize;
    GraphOf(s);
    NoEdgesOut(s.graph, id);
    LinkEffect(s.graph, id, []);
    NoTargets();
    var e := t.artifacts[id];
    assert t.artifacts == s.artifacts[id := e];
    assert s.graph.nodes + {id} + {} == s.graph.nodes + {id};
  }

  /** Two publications that overlap both return, and are given the same generation. */
  lemma OverlapSharesGeneration(h: Bytes -> Digest)
    ensures var s := After(h, REGISTERED); var w := Coordination.BothPublished(h, s, Open(1), Open(2));
      && w.requests[0].stage == Coordination.Done(true) && w.requests[1].stage == Coordination.Done(true)
      && exists x, y :: x in w.cat.artifacts && y in w.cat.artifacts && x != y
           && w.cat.artifacts[x].generation == 2 == w.cat.artifacts[y].generation
  {
    hide WellFormed, After, AllReturn, Locked, Coordination.BothPublished;
    Registered(h);
    var s := After(h, REGISTERED);
    OpenReturns(h, s, 1, 2);
    LockedKeeps(h, s, Publish(Open(1)), 2);
    OpenReturns(h, Locked(h, s, Publish(Open(1)), 2).1, 2, 2);
    Coordination.SharedGeneration(h, s, Open(1), Open(2));
  }
}
