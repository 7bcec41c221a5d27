/** Whole runs of the catalog: what holds whatever throws, and what holds as long as every
    call returns. */
module CatalogRuns {
  import opened Types
  import opened Collections
  import opened Sorting
  import opened Lifecycle
  import opened GraphModel
  import opened DescriptorFormat
  import opened CatalogModel
  import opened CatalogEffects

  /** The catalog after a sequence of calls, whether they returned or threw. */
  ghost function After(h: Bytes -> Digest, calls: seq<Call>): (t: State)
    ensures WellFormed(t)
  {
    if calls == [] then
      NewIsWellFormed();
      NEW_CATALOG
    else
      var s := After(h, calls[..|calls| - 1]);
      DoKeeps(h, s, calls[|calls| - 1]);
      Do(h, s, calls[|calls| - 1]).1
  }

  /** Every call of the sequence returns normally. */
  ghost predicate AllReturn(h: Bytes -> Digest, calls: seq<Call>) {
    calls == []
    || (AllReturn(h, calls[..|calls| - 1])
        && Do(h, After(h, calls[..|calls| - 1]), calls[|calls| - 1]).0.Returned?)
  }

  /** Publications and lifecycle calls only. */
  predicate NoRegister(calls: seq<Call>) {
    forall i :: 0 <= i < |calls| ==> !calls[i].Register?
  }

  lemma NewIsWellFormed()
    ensures WellFormed(NEW_CATALOG)
  {
    assert Valid(Built([]));
  }

  // ---- secondary indexes ----------------------------------------------------------------

  ghost predicate FullyIndexed(s: State) { s.indexed == s.artifacts.Keys }

  lemma ReturnKeepsIndexed(h: Bytes -> Digest, s: State, c: Call)
    requires WellFormed(s) && FullyIndexed(s) && Do(h, s, c).0.Returned?
    ensures FullyIndexed(Do(h, s, c).1)
  {
    if c.Register? {
      RegisterIndexes(s, c.desc);
    } else {
      hide WellFormed, Do, RelabelledAll, RegisterLocked;
      Effects(h, s, c);
    }
  }

  lemma RegisterIndexes(s: State, desc: Descriptor)
    requires WellFormed(s) && FullyIndexed(s) && RegisterLocked(s, desc).0.Returned?
    ensures FullyIndexed(RegisterLocked(s, desc).1)
  {
  }

  lemma FullyIndexedLookup(s: State, k: Key)
    requires WellFormed(s) && FullyIndexed(s)
    ensures Lookup(s, k) == Scan(s, k)
  {
    assert Hits(s, k) == Matches(s.artifacts, k);
  }

  lemma {:induction false} RunKeepsIndexed(h: Bytes -> Digest, calls: seq<Call>)
    requires AllReturn(h, calls)
    ensures FullyIndexed(After(h, calls))
  {
    if calls != [] {
      hide Do;
      RunKeepsIndexed(h, calls[..|calls| - 1]);
      ReturnKeepsIndexed(h, After(h, calls[..|calls| - 1]), calls[|calls| - 1]);
    }
  }

  /** As long as every call returned, each index lookup is a scan of all artifacts, and
      rebuilding the indexes changes nothing. */
  lemma LookupsAreScans(h: Bytes -> Digest, calls: seq<Call>, k: Key)
    requires AllReturn(h, calls)
    ensures Lookup(After(h, calls), k) == Scan(After(h, calls), k)
    ensures Do(h, After(h, calls), RebuildIndexes) == (Returned(()), After(h, calls))
  {
    RunKeepsIndexed(h, calls);
    FullyIndexedLookup(After(h, calls), k);
  }

  lemma FoundIff(s: State, k: Key, id: Id)
    requires WellFormed(s) && FullyIndexed(s)
    ensures id in Lookup(s, k) <==> id in s.artifacts && HasKey(s.artifacts[id], k)
  {
    hide HasKey, Valid;
    assert id in Lookup(s, k) <==> id in Hits(s, k);
  }

  /** As long as every call returned, the twelve lookups find exactly the artifacts with the
      attribute they are named after; an empty architecture and the zero provenance find none. */
  lemma FoundByAttribute(h: Bytes -> Digest, calls: seq<Call>, s: State, id: Id, x: Id, digest: Digest, kind: ArtifactKind,
                         text: Bytes, l: LifecycleState, v: ValidationState, g: U64)
    requires AllReturn(h, calls) && s == After(h, calls) && WellFormed(s)
    ensures id in Lookup(s, ContentKey(digest)) <==> id in s.artifacts && s.artifacts[id].contentDigest == digest
    ensures id in Lookup(s, KindKey(kind)) <==> id in s.artifacts && s.artifacts[id].kind == kind
    ensures id in Lookup(s, ProducerKey(x)) <==> id in s.artifacts && s.artifacts[id].producer == x
    ensures id in Lookup(s, ModelKey(x)) <==> id in s.artifacts && s.artifacts[id].model == Some(x)
    ensures id in Lookup(s, AdapterKey(x)) <==> id in s.artifacts && s.artifacts[id].adapter == Some(x)
    ensures id in Lookup(s, RuntimeKey(x)) <==> id in s.artifacts && s.artifacts[id].runtime == Some(x)
    ensures id in Lookup(s, ToolchainKey(x)) <==> id in s.artifacts && s.artifacts[id].toolchain == Some(x)
    ensures id in Lookup(s, ArchitectureKey(text)) <==> id in s.artifacts && text != [] && s.artifacts[id].architecture == text
    ensures id in Lookup(s, LifecycleKey(l)) <==> id in s.artifacts && s.artifacts[id].lifecycle == l
    ensures id in Lookup(s, ValidationKey(v)) <==> id in s.artifacts && s.artifacts[id].validation == v
    ensures id in Lookup(s, ProvenanceKey(x)) <==> id in s.artifacts && x != 0 && s.artifacts[id].provenance == x
    ensures id in Lookup(s, GenerationKey(g)) <==> id in s.artifacts && s.artifacts[id].generation == g
  {
    hide After, AllReturn, WellFormed, Lookup;
    RunKeepsIndexed(h, calls);
    FoundIff(s, ContentKey(digest), id);
    FoundIff(s, KindKey(kind), id);
    FoundIff(s, ProducerKey(x), id);
    FoundIff(s, ModelKey(x), id);
    FoundIff(s, AdapterKey(x), id);
    FoundIff(s, RuntimeKey(x), id);
    FoundIff(s, ToolchainKey(x), id);
    FoundIff(s, ArchitectureKey(text), id);
    FoundIff(s, LifecycleKey(l), id);
    FoundIff(s, ValidationKey(v), id);
    FoundIff(s, ProvenanceKey(x), id);
    FoundIff(s, GenerationKey(g), id);
  }

  lemma AfterOne(h: Bytes -> Digest, calls: seq<Call>, c: Call)
    ensures After(h, calls + [c]) == Do(h, After(h, calls), c).1
  {
    assert (calls + [c])[..|calls|] == calls;
  }

  /** A call that throws can lose index entries: after calls that all returned, promoting `id`
      makes it disappear from its kind exactly when it passes every check and the artifact is not
      PUBLISHED, as the transition is then illegal. */
  lemma PromoteUnindexesIff(h: Bytes -> Digest, calls: seq<Call>, id: Id, a: Authority)
    requires AllReturn(h, calls) && id in After(h, calls).artifacts
    ensures id in Lookup(After(h, calls), KindKey(After(h, calls).artifacts[id].kind))
    ensures var s := After(h, calls); var t := After(h, calls + [Promote(id, a)]);
      id !in Lookup(t, KindKey(s.artifacts[id].kind)) <==>
        && Fence(s.epoch, s.boot, a).Returned? && !StaleGeneration(a, s.artifacts[id].generation)
        && s.artifacts[id].lifecycle != PUBLISHED
  {
    hide CanTransition, WellFormed, After, AllReturn, PublishLocked, InvalidateLocked, RetireLocked, RegisterLocked,
      SupersedeLocked, QuarantineLocked, ValidateLocked, Complete, AllSettling;
    AfterOne(h, calls, Promote(id, a));
    RunKeepsIndexed(h, calls);
    RunKeepsSettling(h, calls);
    SettlingAt(After(h, calls).artifacts, id);
    EnteredFrom(After(h, calls).artifacts[id].lifecycle);
  }

  // ---- validation -----------------------------------------------------------------------

  /** The states artifacts are in while every call returns: the states `publish` passes through
      are never seen, and no call leads to STALE or EVICTED. */
  predicate Settling(l: LifecycleState) {
    l != BUILDING && l != VALIDATING && l != VALID && l != STALE && l != EVICTED
  }

  ghost predicate AllSettling(m: map<Id, Descriptor>) {
    forall id :: id in m ==> Settling(m[id].lifecycle)
  }

  lemma MovedSettling(from: LifecycleState, to: LifecycleState)
    requires Settling(from) && Moved(from, to)
    ensures Settling(to)
  {
  }

  lemma RelabelledSettling(m: map<Id, Descriptor>, n: map<Id, Descriptor>)
    requires RelabelledAll(m, n) && AllSettling(m)
    ensures AllSettling(n)
  {
    hide SameArtifact, Moved;
    forall id | id in n ensures Settling(n[id].lifecycle) {
      assert RelabelledOne(m[id], n[id]);
      MovedSettling(m[id].lifecycle, n[id].lifecycle);
    }
  }

  lemma ReplacedSettling(m: map<Id, Descriptor>, id: Id, d: Descriptor)
    requires AllSettling(m) && Settling(d.lifecycle)
    ensures AllSettling(m[id := d])
  {
  }

  lemma ReturnKeepsSettling(h: Bytes -> Digest, s: State, c: Call)
    requires WellFormed(s) && AllSettling(s.artifacts) && Do(h, s, c).0.Returned?
    ensures AllSettling(Do(h, s, c).1.artifacts)
  {
    if c.Register? {
      hide WellFormed, AllSettling;
      ReplacedSettling(s.artifacts, c.desc.id, c.desc.(lifecycle := DECLARED, validation := UNVALIDATED));
    } else {
      hide WellFormed, Do, RelabelledAll, DescriptorFormat.Encodable, Link, Valid, Stored, Released, CanTransition, ToI64,
        AllSettling;
      var t := Do(h, s, c).1;
      Effects(h, s, c);
      if Relabelled(s, t) {
        RelabelledSettling(s.artifacts, t.artifacts);
      } else if c.Publish? {
        var d :| Published(h, s, t, c.request, d);
        ReplacedSettling(s.artifacts, d.id, d);
      } else {
        ReplacedSettling(s.artifacts, c.id, t.artifacts[c.id]);
      }
    }
  }

  lemma {:induction false} RunKeepsSettling(h: Bytes -> Digest, calls: seq<Call>)
    requires AllReturn(h, calls)
    ensures AllSettling(After(h, calls).artifacts)
  {
    if calls != [] {
      hide Do, AllSettling;
      RunKeepsSettling(h, calls[..|calls| - 1]);
      ReturnKeepsSettling(h, After(h, calls[..|calls| - 1]), calls[|calls| - 1]);
    } else {
      assert AllSettling(NEW_CATALOG.artifacts);
    }
  }

  lemma SettlingAt(m: map<Id, Descriptor>, id: Id)
    requires AllSettling(m)
    ensures id in m ==> Settling(m[id].lifecycle)
  {
  }

  /** After calls that all returned, `validate_artifact` can return normally in one case only:
      a report of failure on an artifact that was registered and never published. Validating a
      published artifact always throws. */
  lemma ValidateReturnsIff(h: Bytes -> Digest, calls: seq<Call>, id: Id, report: Report, a: Authority)
    requires AllReturn(h, calls)
    ensures var s := After(h, calls);
      Do(h, s, Validate(id, report, a)).0.Returned? <==>
        && Fence(s.epoch, s.boot, a).Returned? && id in s.artifacts
        && !StaleGeneration(a, s.artifacts[id].generation)
        && s.artifacts[id].lifecycle == DECLARED && !report.AllOk()
  {
    hide After, AllReturn, WellFormed, PublishLocked, InvalidateLocked, RetireLocked, Complete, AllSettling;
    RunKeepsSettling(h, calls);
    SettlingAt(After(h, calls).artifacts, id);
  }

  lemma PromoteReturnsIff(h: Bytes -> Digest, s: State, id: Id, a: Authority)
    requires WellFormed(s) && id in s.artifacts && Settling(s.artifacts[id].lifecycle) && Fence(s.epoch, s.boot, a).Returned?
    ensures var d := s.artifacts[id]; var (r, t) := Do(h, s, Promote(id, a));
      && (r.Returned? <==> !StaleGeneration(a, d.generation) && d.lifecycle == PUBLISHED)
      && (r.Returned? ==> t.artifacts == s.artifacts[id := d.(lifecycle := ACTIVE)])
  {
    hide WellFormed, PublishLocked, InvalidateLocked, RetireLocked, Complete, SupersedeLocked, QuarantineLocked;
  }

  lemma SupersedeReturnsIff(h: Bytes -> Digest, s: State, id: Id, successor: Id, a: Authority)
    requires WellFormed(s) && id in s.artifacts && Settling(s.artifacts[id].lifecycle) && Fence(s.epoch, s.boot, a).Returned?
    ensures var d := s.artifacts[id]; var (r, t) := Do(h, s, Supersede(id, successor, a));
      && (r.Returned? <==> successor in s.artifacts && !StaleGeneration(a, s.artifacts[successor].generation)
                           && d.lifecycle in {PUBLISHED, ACTIVE})
      && (r.Returned? ==> t.artifacts == s.artifacts[id := d.(lifecycle := SUPERSEDED)]
                          && id in t.successors && successor in t.successors[id])
  {
    hide WellFormed, PublishLocked, InvalidateLocked, RetireLocked, Complete, PromoteLocked, QuarantineLocked;
  }

  lemma SetAsideReturnsIff(h: Bytes -> Digest, s: State, id: Id, record: Quarantine, a: Authority)
    requires WellFormed(s) && id in s.artifacts && Settling(s.artifacts[id].lifecycle) && Fence(s.epoch, s.boot, a).Returned?
    ensures var d := s.artifacts[id]; var (r, t) := Do(h, s, SetAside(id, record, a));
      && (r.Returned? <==> d.lifecycle in {PUBLISHED, ACTIVE, INVALIDATED, SUPERSEDED})
      && (r.Returned? ==> t.artifacts == s.artifacts[id := d.(lifecycle := QUARANTINED, validation := QUARANTINE)])
  {
    hide WellFormed, PublishLocked, InvalidateLocked, RetireLocked, Complete, PromoteLocked, SupersedeLocked;
  }

  /** After calls that all returned: an artifact can be promoted exactly while it is PUBLISHED,
      superseded while it is PUBLISHED or ACTIVE, and quarantined while it is one of these,
      INVALIDATED or SUPERSEDED, and each call then changes that artifact alone. */
  lemma LifecycleCallsReturnIff(h: Bytes -> Digest, calls: seq<Call>, id: Id, successor: Id, record: Quarantine, a: Authority)
    requires AllReturn(h, calls) && id in After(h, calls).artifacts
    requires Fence(After(h, calls).epoch, After(h, calls).boot, a).Returned?
    ensures var s := After(h, calls); var d := s.artifacts[id]; var (r, t) := Do(h, s, Promote(id, a));
      && (r.Returned? <==> !StaleGeneration(a, d.generation) && d.lifecycle == PUBLISHED)
      && (r.Returned? ==> t.artifacts == s.artifacts[id := d.(lifecycle := ACTIVE)])
    ensures var s := After(h, calls); var d := s.artifacts[id]; var (r, t) := Do(h, s, Supersede(id, successor, a));
      && (r.Returned? <==> successor in s.artifacts && !StaleGeneration(a, s.artifacts[successor].generation)
                           && d.lifecycle in {PUBLISHED, ACTIVE})
      && (r.Returned? ==> t.artifacts == s.artifacts[id := d.(lifecycle := SUPERSEDED)]
                          && id in t.successors && successor in t.successors[id])
    ensures var s := After(h, calls); var d := s.artifacts[id]; var (r, t) := Do(h, s, SetAside(id, record, a));
      && (r.Returned? <==> d.lifecycle in {PUBLISHED, ACTIVE, INVALIDATED, SUPERSEDED})
      && (r.Returned? ==> t.artifacts == s.artifacts[id := d.(lifecycle := QUARANTINED, validation := QUARANTINE)])
  {
    hide After, AllReturn, WellFormed, Do, AllSettling, Settling;
    RunKeepsSettling(h, calls);
    SettlingAt(After(h, calls).artifacts, id);
    PromoteReturnsIff(h, After(h, calls), id, a);
    SupersedeReturnsIff(h, After(h, calls), id, successor, a);
    SetAsideReturnsIff(h, After(h, calls), id, record, a);
  }

  lemma RetireMovesIff(h: Bytes -> Digest, s: State, id: Id, a: Authority)
    requires WellFormed(s) && id in s.artifacts && Fence(s.epoch, s.boot, a).Returned?
    ensures var d := s.artifacts[id]; var (r, t) := Do(h, s, Retire(id, a));
      && (r == Threw(IllegalTransition) <==> !CanTransition(d.lifecycle, RETIRED))
      && t.artifacts == (if CanTransition(d.lifecycle, RETIRED) then s.artifacts[id := d.(lifecycle := RETIRED)] else s.artifacts)
  {
    hide WellFormed, PublishLocked, InvalidateLocked, CanTransition, Complete, PromoteLocked, SupersedeLocked, QuarantineLocked,
      ValidateLocked, Drop, Discharge;
    var d := s.artifacts[id];
    var s1 := s.(artifacts := s.artifacts[id := d.(lifecycle := RETIRED)], indexed := s.indexed - {id});
    DropOnlyThrows(s1, d.contentDigest);
    DischargeOnlyThrows(Drop(s1, d.contentDigest).1, d);
  }

  lemma DropOnlyThrows(s: State, cd: Digest)
    ensures Drop(s, cd).0 != Threw(IllegalTransition) && Drop(s, cd).1.artifacts == s.artifacts
  {
    hide Down;
  }

  lemma DischargeOnlyThrows(s: State, d: Descriptor)
    ensures Discharge(s, d).0 != Threw(IllegalTransition) && Discharge(s, d).1.artifacts == s.artifacts
  {
    hide ToI64;
  }

  /** After calls that all returned, retiring gets past the transition exactly in these states;
      the artifact is then RETIRED even if giving up its content throws. Otherwise the call
      throws on the transition and no artifact changes. */
  lemma RetireAcceptedIff(h: Bytes -> Digest, calls: seq<Call>, id: Id, a: Authority)
    requires AllReturn(h, calls) && id in After(h, calls).artifacts
    requires Fence(After(h, calls).epoch, After(h, calls).boot, a).Returned?
    ensures var s := After(h, calls); var d := s.artifacts[id]; var (r, t) := Do(h, s, Retire(id, a));
      var accepted := d.lifecycle in {DECLARED, PUBLISHED, ACTIVE, INVALIDATED, SUPERSEDED, QUARANTINED};
      && (r != Threw(IllegalTransition) <==> accepted)
      && t.artifacts == if accepted then s.artifacts[id := d.(lifecycle := RETIRED)] else s.artifacts
  {
    hide After, AllReturn, WellFormed, Do, AllSettling, CanTransition;
    RunKeepsSettling(h, calls);
    SettlingAt(After(h, calls).artifacts, id);
    EnteredFrom(After(h, calls).artifacts[id].lifecycle);
    RetireMovesIff(h, After(h, calls), id, a);
  }

  // ---- the dependency graph -------------------------------------------------------------

  function DependenciesIn(m: map<Id, Descriptor>, a: Id): seq<DependencyRef> {
    if a in m then m[a].dependencies else []
  }

  ghost predicate Used(m: map<Id, Descriptor>, n: Id) {
    n in m || exists a :: a in m && n in Targets(m[a].dependencies)
  }

  /** The graph is the one the catalogued dependencies describe. */
  ghost predicate Linked(s: State) {
    && s.artifacts.Keys <= s.graph.nodes
    && |s.graph.nodes| <= MAX_NODES
    && (forall a :: Direct(s.graph, a) == DependenciesIn(s.artifacts, a))
    && (forall n :: n in s.graph.nodes ==> Used(s.artifacts, n))
  }

  /** `k` is `g` with the edges `deps` added after those of `id`, and their targets as nodes. */
  ghost predicate Grown(g: Graph, k: Graph, id: Id, deps: seq<DependencyRef>) {
    && k.nodes == g.nodes + Elements(Targets(deps))
    && (|g.nodes| <= MAX_NODES ==> |k.nodes| <= MAX_NODES)
    && (forall a :: Direct(k, a) == if a == id then Direct(g, id) + deps else Direct(g, a))
  }

  lemma NodeEffect(g: Graph, id: Id)
    requires Valid(g) && AddNode(g, id).0.Returned?
    ensures var k := AddNode(g, id).1;
      && k.nodes == g.nodes + {id} && (forall a :: Direct(k, a) == Direct(g, a))
      && (|g.nodes| <= MAX_NODES ==> |k.nodes| <= MAX_NODES)
  {
    assert id in g.nodes ==> g.nodes == g.nodes + {id};
  }

  lemma OneGrown(g: Graph, g1: Graph, g2: Graph, id: Id, dep: DependencyRef)
    requires Valid(g1) && AddEdge(g1, id, dep) == (Returned(()), g2)
    requires g1.nodes == g.nodes + {dep.artifact} && forall a :: Direct(g1, a) == Direct(g, a)
    requires |g.nodes| <= MAX_NODES ==> |g1.nodes| <= MAX_NODES
    ensures Grown(g, g2, id, [dep])
  {
    assert Targets([dep]) == [dep.artifact];
    assert Elements(Targets([dep])) == {dep.artifact};
    assert g2 == WithEdge(g1, id, dep);
  }

  lemma TargetsSplit(deps: seq<DependencyRef>)
    requires deps != []
    ensures Elements(Targets(deps)) == Elements(Targets(deps[..1])) + Elements(Targets(deps[1..]))
  {
    assert Targets(deps) == Targets(deps[..1]) + Targets(deps[1..]);
  }

  lemma GrownTwice(g: Graph, g2: Graph, k: Graph, id: Id, deps: seq<DependencyRef>)
    requires deps != [] && Grown(g, g2, id, deps[..1]) && Grown(g2, k, id, deps[1..])
    ensures Grown(g, k, id, deps)
  {
    hide Direct, Elements, Targets;
    TargetsSplit(deps);
    assert (Direct(g, id) + deps[..1]) + deps[1..] == Direct(g, id) + deps;
  }

  lemma {:induction false} LinkAllEffect(g: Graph, id: Id, deps: seq<DependencyRef>)
    requires Valid(g) && id in g.nodes && LinkAll(g, id, deps).0.Returned?
    ensures Grown(g, LinkAll(g, id, deps).1, id, deps)
    decreases |deps|
  {
    if deps == [] {
      assert Elements(Targets(deps)) == {};
      assert Direct(g, id) + [] == Direct(g, id);
    } else {
      hide Valid, AddNode, AddEdge, Grown, Direct;
      var dep := deps[0];
      AddNodeKeepsValid(g, dep.artifact);
      var g1 := if dep.artifact in g.nodes then g else AddNode(g, dep.artifact).1;
      if dep.artifact !in g.nodes { NodeEffect(g, dep.artifact); } else { assert g.nodes == g.nodes + {dep.artifact}; }
      AddEdgeKeepsValid(g1, id, dep);
      var (linked, g2) := AddEdge(g1, id, dep);
      UnitOutcome(linked);
      OneGrown(g, g1, g2, id, dep);
      assert deps[..1] == [dep];
      GrownNodes(g, g2, id, [dep]);
      LinkAllEffect(g2, id, deps[1..]);
      GrownTwice(g, g2, LinkAll(g2, id, deps[1..]).1, id, deps);
    }
  }

  lemma GrownNodes(g: Graph, k: Graph, id: Id, deps: seq<DependencyRef>)
    requires Grown(g, k, id, deps)
    ensures g.nodes <= k.nodes
  {
  }

  lemma LinkEffect(g: Graph, id: Id, deps: seq<DependencyRef>)
    requires Valid(g) && Link(g, id, deps).0.Returned? && Direct(g, id) == []
    ensures var k := Link(g, id, deps).1;
      && k.nodes == g.nodes + {id} + Elements(Targets(deps))
      && (forall a :: Direct(k, a) == if a == id then deps else Direct(g, a))
      && (|g.nodes| <= MAX_NODES ==> |k.nodes| <= MAX_NODES)
  {
    hide Valid, Direct, AddNode, LinkAll, Elements;
    AddNodeKeepsValid(g, id);
    NodeEffect(g, id);
    LinkAllEffect(AddNode(g, id).1, id, deps);
    assert [] + deps == deps;
  }

  /** A new artifact, linked, is described by the graph like the others. */
  lemma LinkOne(s: State, t: State, d: Descriptor)
    requires Linked(s) && Valid(s.graph) && d.id !in s.artifacts && t.artifacts == s.artifacts[d.id := d]
    requires Link(s.graph, d.id, d.dependencies) == (Returned(()), t.graph)
    ensures Linked(t)
  {
    hide Valid, Link, Elements, Targets;
    assert Direct(s.graph, d.id) == DependenciesIn(s.artifacts, d.id) == [];
    LinkEffect(s.graph, d.id, d.dependencies);
    forall a ensures Direct(t.graph, a) == DependenciesIn(t.artifacts, a) {
      assert Direct(s.graph, a) == DependenciesIn(s.artifacts, a);
    }
    forall n | n in t.graph.nodes ensures Used(t.artifacts, n) {
      UsedMore(s.artifacts, d, n);
    }
  }

  lemma PublishedLinked(h: Bytes -> Digest, s: State, t: State, req: PublishRequest, d: Descriptor)
    requires Linked(s) && Published(h, s, t, req, d)
    ensures Linked(t)
  {
    hide Valid, Link, Encodable, Stored, ToI64, Linked;
    LinkOne(s, t, d);
  }

  lemma UsedMore(m: map<Id, Descriptor>, d: Descriptor, n: Id)
    requires d.id !in m && (Used(m, n) || n == d.id || n in Elements(Targets(d.dependencies)))
    ensures Used(m[d.id := d], n)
  {
    var m' := m[d.id := d];
    if n !in m' {
      if Used(m, n) {
        var a :| a in m && n in Targets(m[a].dependencies);
        assert a in m' && n in Targets(m'[a].dependencies);
      } else {
        assert d.id in m' && n in Targets(m'[d.id].dependencies);
      }
    }
  }

  /** The same artifacts up to lifecycle and validation state. */
  ghost predicate SameContents(m: map<Id, Descriptor>, n: map<Id, Descriptor>) {
    n.Keys == m.Keys && forall id :: id in m ==> SameArtifact(m[id], n[id])
  }

  lemma SameContentsLinked(s: State, t: State)
    requires Linked(s) && SameContents(s.artifacts, t.artifacts) && t.graph == s.graph
    ensures Linked(t)
  {
    forall a ensures DependenciesIn(t.artifacts, a) == DependenciesIn(s.artifacts, a) {
      if a in s.artifacts { assert SameArtifact(s.artifacts[a], t.artifacts[a]); }
    }
    forall n | n in t.graph.nodes ensures Used(t.artifacts, n) {
      assert Used(s.artifacts, n);
      if a :| a in s.artifacts && n in Targets(s.artifacts[a].dependencies) {
        assert DependenciesIn(t.artifacts, a) == DependenciesIn(s.artifacts, a);
        assert a in t.artifacts && n in Targets(t.artifacts[a].dependencies);
      }
    }
  }

  lemma RelabelledSame(s: State, t: State)
    requires Relabelled(s, t)
    ensures SameContents(s.artifacts, t.artifacts)
  {
    hide SameArtifact, Moved;
    forall id | id in s.artifacts ensures SameArtifact(s.artifacts[id], t.artifacts[id]) {
      assert RelabelledOne(s.artifacts[id], t.artifacts[id]);
    }
  }

  lemma RetiredSame(s: State, t: State, id: Id)
    requires RetiredOne(s, t, id)
    ensures SameContents(s.artifacts, t.artifacts)
  {
    hide ToI64, Released, CanTransition, Down;
    forall x | x in s.artifacts ensures SameArtifact(s.artifacts[x], t.artifacts[x]) {
      SameArtifactSelf(s.artifacts[x]);
    }
  }

  lemma ReturnKeepsLinked(h: Bytes -> Digest, s: State, c: Call)
    requires WellFormed(s) && Linked(s) && !c.Register? && Do(h, s, c).0.Returned?
    ensures Linked(Do(h, s, c).1)
  {
    hide WellFormed, Do, RelabelledAll, Linked, Published, Relabelled, RetiredOne, SameContents;
    var t := Do(h, s, c).1;
    Effects(h, s, c);
    if Relabelled(s, t) {
      RelabelledSame(s, t);
      RelabelledGraph(s, t);
      SameContentsLinked(s, t);
    } else if c.Publish? {
      var d :| Published(h, s, t, c.request, d);
      PublishedLinked(h, s, t, c.request, d);
    } else {
      RetiredSame(s, t, c.id);
      RetiredGraph(s, t, c.id);
      SameContentsLinked(s, t);
    }
  }

  lemma RelabelledGraph(s: State, t: State)
    requires Relabelled(s, t)
    ensures t.graph == s.graph
  {
  }

  lemma RetiredGraph(s: State, t: State, id: Id)
    requires RetiredOne(s, t, id)
    ensures t.graph == s.graph
  {
  }

  lemma NewIsLinked()
    ensures Linked(NEW_CATALOG)
  {
  }

  /** After any run of publications and lifecycle calls that returned, the dependency graph is
      exactly the one the catalogued descriptors describe. */
  lemma {:induction false} RunKeepsLinked(h: Bytes -> Digest, calls: seq<Call>)
    requires AllReturn(h, calls) && NoRegister(calls)
    ensures Linked(After(h, calls))
  {
    if calls == [] {
      NewIsLinked();
    } else {
      hide Do, Linked;
      RunKeepsLinked(h, calls[..|calls| - 1]);
      ReturnKeepsLinked(h, After(h, calls[..|calls| - 1]), calls[|calls| - 1]);
    }
  }
}
