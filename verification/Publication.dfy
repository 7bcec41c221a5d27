/** When a publication returns normally. */
module Publications {
  import opened Types
  import opened Collections
  import opened Lifecycle
  import opened Accounting
  import opened GraphModel
  import opened DescriptorFormat
  import opened DependencyDigests
  import opened Derivation
  import opened CatalogModel
  import opened CatalogEffects
  import opened CatalogRuns
  import opened CounterGuards

  // ---- linking --------------------------------------------------------------------------

  /** The edges from `id` to `deps` are new, distinct, and close no cycle. */
  ghost predicate Fits(g: Graph, id: Id, deps: seq<DependencyRef>) {
    && Distinct(Targets(deps))
    && forall t :: t in Targets(deps) ==> FitsOne(g, id, t)
  }

  ghost predicate FitsOne(g: Graph, id: Id, t: Id) {
    t != id && !Edge(g, id, t) && !DependsOn(g, t, id)
  }

  /** No node that has to be made is one too many. */
  ghost predicate Room(g: Graph, deps: seq<DependencyRef>) {
    |g.nodes + Elements(Targets(deps))| <= MAX_NODES
  }

  /** More edges out of `id` open no way to `id`. */
  lemma {:induction false} PathsTo(g: Graph, k: Graph, id: Id, p: seq<Id>)
    requires IsPath(k, p) && p[|p| - 1] == id
    requires forall a, b :: a != id && Edge(k, a, b) ==> Edge(g, a, b)
    ensures Reaches(g, p[0], id)
  {
    if p[0] == id {
      ReachesSelf(g, id);
    } else {
      var q := p[1..];
      forall i | 0 <= i < |q| - 1 ensures Edge(k, q[i], q[i + 1]) { assert q[i] == p[i + 1] && q[i + 1] == p[i + 2]; }
      PathsTo(g, k, id, q);
      assert Edge(k, p[0], p[0 + 1]);
      EdgeThenReaches(g, p[0], p[1], id);
    }
  }

  lemma SameWaysTo(g: Graph, k: Graph, id: Id, t: Id)
    requires forall a, b :: Edge(g, a, b) ==> Edge(k, a, b)
    requires forall a, b :: a != id && Edge(k, a, b) ==> Edge(g, a, b)
    requires t != id
    ensures DependsOn(k, t, id) <==> DependsOn(g, t, id)
  {
    if DependsOn(k, t, id) {
      DependsReaches(k, t, id);
      var p :| Joins(k, p, t, id);
      PathsTo(g, k, id, p);
      ReachesSplit(g, t, id);
    }
    if DependsOn(g, t, id) {
      var c :| Through(g, t, c, id);
      var p :| Joins(g, p, c, id);
      assert Joins(k, p, c, id);
      assert Through(k, t, c, id);
    }
  }

  lemma HeadAndTail(deps: seq<DependencyRef>)
    requires deps != []
    ensures Targets(deps) == [deps[0].artifact] + Targets(deps[1..])
    ensures Elements(Targets(deps)) == {deps[0].artifact} + Elements(Targets(deps[1..]))
    ensures Distinct(Targets(deps)) <==> Distinct(Targets(deps[1..])) && deps[0].artifact !in Targets(deps[1..])
  {
    var ts, rest := Targets(deps), Targets(deps[1..]);
    assert ts == [deps[0].artifact] + rest;
    if Distinct(ts) {
      forall i, j | 0 <= i < j < |rest| ensures rest[i] != rest[j] { assert ts[i + 1] != ts[j + 1]; }
      forall j | 0 <= j < |rest| ensures rest[j] != ts[0] { assert ts[j + 1] != ts[0]; }
    }
    if Distinct(rest) && deps[0].artifact !in rest {
      forall i, j | 0 <= i < j < |ts| ensures ts[i] != ts[j] {
        if i > 0 { assert rest[i - 1] != rest[j - 1]; } else { assert rest[j - 1] in rest; }
      }
    }
  }

  /** What is left fits after one more edge exactly when everything fitted before. */
  lemma FitsStep(g: Graph, k: Graph, id: Id, deps: seq<DependencyRef>)
    requires deps != [] && FitsOne(g, id, deps[0].artifact)
    requires forall a, b :: Edge(k, a, b) <==> Edge(g, a, b) || (a == id && b == deps[0].artifact)
    ensures Fits(k, id, deps[1..]) <==> Fits(g, id, deps)
  {
    hide Distinct, DependsOn, Edge;
    HeadAndTail(deps);
    forall t | t != deps[0].artifact ensures FitsOne(k, id, t) <==> FitsOne(g, id, t) {
      if t != id { SameWaysTo(g, k, id, t); }
    }
    assert deps[0].artifact in Targets(deps[1..]) ==> !FitsOne(k, id, deps[0].artifact);
  }

  lemma EdgeReturnsIff(g: Graph, id: Id, dep: DependencyRef)
    requires Valid(g) && id in g.nodes && dep.artifact in g.nodes
    ensures AddEdge(g, id, dep).0.Returned? <==> FitsOne(g, id, dep.artifact)
    ensures AddEdge(g, id, dep).0.Returned? ==> var k := AddEdge(g, id, dep).1;
      k.nodes == g.nodes && forall a, b :: Edge(k, a, b) <==> Edge(g, a, b) || (a == id && b == dep.artifact)
  {
    var t := dep.artifact;
    if t != id {
      if Reaches(g, t, id) { ReachesSplit(g, t, id); }
      if DependsOn(g, t, id) { DependsReaches(g, t, id); }
    }
    WithEdgeEdges(g, id, dep);
  }

  lemma NoRoom(g: Graph, id: Id, deps: seq<DependencyRef>)
    requires deps != [] && deps[0].artifact !in g.nodes && |g.nodes| == MAX_NODES
    ensures !Room(g, deps)
  {
    hide Elements, Targets;
    HeadAndTail(deps);
    SubsetSize(g.nodes + {deps[0].artifact}, g.nodes + Elements(Targets(deps)));
  }

  lemma {:induction false} LinkAllReturnsIff(g: Graph, id: Id, deps: seq<DependencyRef>)
    requires Valid(g) && id in g.nodes && |g.nodes| <= MAX_NODES
    ensures LinkAll(g, id, deps).0.Returned? <==> Room(g, deps) && Fits(g, id, deps)
    decreases |deps|
  {
    if deps == [] {
      assert Elements(Targets(deps)) == {};
      assert g.nodes + {} == g.nodes;
    } else {
      hide Valid, AddNode, AddEdge, Fits, FitsOne, Edge, DependsOn, Elements, Targets, Room;
      var t := deps[0].artifact;
      NodeReturnsIff(g, id, t);
      AddNodeKeepsValid(g, t);
      var (noted, g1) := if t in g.nodes then (Returned(()), g) else AddNode(g, t);
      if noted.Threw? {
        NoRoom(g, id, deps);
      } else {
        AddEdgeKeepsValid(g1, id, deps[0]);
        EdgeReturnsIff(g1, id, deps[0]);
        var (linked, g2) := AddEdge(g1, id, deps[0]);
        if linked.Threw? {
          Unfit(g, id, deps);
        } else {
          LinkAllReturnsIff(g2, id, deps[1..]);
          FitsStep(g, g2, id, deps);
          RoomStep(g, g2, deps);
        }
      }
    }
  }

  lemma RoomStep(g: Graph, k: Graph, deps: seq<DependencyRef>)
    requires deps != [] && k.nodes == g.nodes + {deps[0].artifact}
    ensures Room(k, deps[1..]) <==> Room(g, deps)
  {
    HeadAndTail(deps);
    assert k.nodes + Elements(Targets(deps[1..])) == g.nodes + Elements(Targets(deps));
  }

  /** A target that is a node already, or becomes one. */
  lemma NodeReturnsIff(g: Graph, id: Id, t: Id)
    requires Valid(g) && |g.nodes| <= MAX_NODES
    ensures var (noted, k) := if t in g.nodes then (Returned(()), g) else AddNode(g, t);
      && (noted.Threw? <==> t !in g.nodes && |g.nodes| == MAX_NODES)
      && (noted.Returned? ==>
            && k.nodes == g.nodes + {t} && |k.nodes| <= MAX_NODES && Valid(k)
            && (forall a, b :: Edge(k, a, b) <==> Edge(g, a, b))
            && (FitsOne(k, id, t) <==> FitsOne(g, id, t)))
  {
    hide Valid, FitsOne, Edge;
    if t in g.nodes {
      assert g.nodes == g.nodes + {t};
    } else if |g.nodes| < MAX_NODES {
      AddNodeKeepsValid(g, t);
      NodeEffect(g, t);
      SameDirects(g, AddNode(g, t).1, id, t);
    }
  }

  lemma Unfit(g: Graph, id: Id, deps: seq<DependencyRef>)
    requires deps != [] && !FitsOne(g, id, deps[0].artifact)
    ensures !Fits(g, id, deps)
  {
    assert Targets(deps)[0] in Targets(deps);
  }

  lemma SameDirects(g: Graph, k: Graph, id: Id, t: Id)
    requires forall a :: Direct(k, a) == Direct(g, a)
    ensures forall a, b :: Edge(k, a, b) <==> Edge(g, a, b)
    ensures FitsOne(k, id, t) <==> FitsOne(g, id, t)
  {
    assert forall a, b :: Edge(k, a, b) <==> Edge(g, a, b);
    SameEdgesSamePaths(g, k);
  }

  /** Linking a new artifact returns exactly when the graph is not full, nor would become so
      before the last dependency is a node, and the edges fit. */
  lemma LinkReturnsIff(g: Graph, id: Id, deps: seq<DependencyRef>)
    requires Valid(g)
    ensures Link(g, id, deps).0.Returned? <==>
      |g.nodes| < MAX_NODES && |g.nodes + {id} + Elements(Targets(deps))| <= MAX_NODES && Fits(g, id, deps)
  {
    hide Valid, AddNode, LinkAll, Fits, Elements, Targets;
    AddNodeKeepsValid(g, id);
    AddedNode(g, id, deps);
    if AddNode(g, id).0.Returned? { LinkAllReturnsIff(AddNode(g, id).1, id, deps); }
  }

  lemma AddedNode(g: Graph, id: Id, deps: seq<DependencyRef>)
    requires Valid(g)
    ensures AddNode(g, id).0.Returned? <==> |g.nodes| < MAX_NODES
    ensures AddNode(g, id).0.Returned? ==> var k := AddNode(g, id).1;
      k.nodes == g.nodes + {id} && |k.nodes| <= MAX_NODES && (Fits(k, id, deps) <==> Fits(g, id, deps))
  {
    hide Valid, FitsOne;
    if |g.nodes| < MAX_NODES {
      NodeEffect(g, id);
      forall t ensures FitsOne(AddNode(g, id).1, id, t) <==> FitsOne(g, id, t) {
        SameDirects(g, AddNode(g, id).1, id, t);
      }
    }
  }

  // ---- publishing -----------------------------------------------------------------------

  /** The descriptor a request is published under. */
  function Completed(h: Bytes -> Digest, next: U64, req: PublishRequest): Descriptor
    requires TextFits(req.descriptor)
  {
    CompleteReturns(h, next, req);
    Complete(h, next, req).value
  }

  lemma CompleteReturns(h: Bytes -> Digest, next: U64, req: PublishRequest)
    ensures Complete(h, next, req).Returned? <==> req.descriptor.id != 0 || TextFits(req.descriptor)
  {
    hide CompatBytes;
  }

  /** The content can be charged for, or its reference counted. */
  predicate Chargeable(s: State, cd: Digest, size: int) {
    if cd !in s.store then s.counters.physicalBytes + size >= 0
    else Up(s.store[cd].references) <= 1 || s.counters.dedupBytes + size >= 0
  }

  predicate Countable(s: State, d: Descriptor) {
    && s.counters.logicalBytes + ToI64(d.sizeBytes) >= 0 && s.counters.activeReferences + 1 >= 0
    && (s.nextGeneration > d.generation || d.generation < U64_MAX)
  }

  /** The identifier is free, the generation current, and the graph takes the artifact in. */
  ghost predicate Admissible(s: State, a: Authority, d: Descriptor) {
    && d.id !in s.artifacts && !StaleGeneration(a, d.generation)
    && |s.graph.nodes| < MAX_NODES && |s.graph.nodes + {d.id} + Elements(Targets(d.dependencies))| <= MAX_NODES
    && Fits(s.graph, d.id, d.dependencies)
  }

  lemma SignReturnsIff(h: Bytes -> Digest, g: Graph, d: Descriptor)
    requires Valid(g)
    ensures Sign(h, g, d).Returned? <==> Encodable(d)
    ensures Sign(h, g, d).Returned? ==> var e := Sign(h, g, d).value;
      e == d.(dependencyDigest := e.dependencyDigest, metadataDigest := e.metadataDigest,
              compatibilityDigest := e.compatibilityDigest, validation := INTEGRITY_OK, lifecycle := PUBLISHED)
  {
    hide DescriptorF, CompatBytes, DigestInput, Valid;
    var u := Unsigned(h, g, d);
    assert Encodable(u) <==> Encodable(d) by { assert u.placements == d.placements; }
  }

  lemma ChargeReturnsIff(s: State, d: Descriptor)
    ensures Charge(s, d).0.Returned? <==> Countable(s, d)
    ensures Charge(s, d).0.Returned? ==>
      Charge(s, d).1.nextGeneration == if s.nextGeneration > d.generation then s.nextGeneration else d.generation + 1
  {
    hide ToI64;
  }

  lemma EnterReturnsIff(h: Bytes -> Digest, s: State, d: Descriptor)
    requires WellFormed(s)
    ensures Enter(h, s, d).0.Returned? <==>
      Link(s.graph, d.id, d.dependencies).0.Returned? && Encodable(d) && Countable(s, d)
    ensures Enter(h, s, d).0.Returned? ==>
      && Sign(h, Link(s.graph, d.id, d.dependencies).1, d).Returned?
      && Enter(h, s, d).1.nextGeneration == (if s.nextGeneration > d.generation then s.nextGeneration else d.generation + 1)
  {
    hide WellFormed, Link, Sign, Unsigned, Charge, Encodable, ToI64;
    GraphOf(s);
    var s1 := s.(artifacts := s.artifacts[d.id := d]);
    var (linked, g) := Link(s1.graph, d.id, d.dependencies);
    SignReturnsIff(h, g, d);
    if linked.Returned? && Encodable(d) {
      var e := Sign(h, g, d).value;
      ChargeReturnsIff(s1.(graph := g, artifacts := s1.artifacts[d.id := e]), e);
    }
  }

  /** The locked part of a publication, exactly: when it returns, and what it enters. */
  lemma LockedReturnsIff(h: Bytes -> Digest, s: State, req: PublishRequest, d: Descriptor)
    requires WellFormed(s)
    ensures PublishLocked(h, s, req, d).0.Returned? <==>
      && Admissible(s, req.authority, d) && Encodable(d)
      && Chargeable(s, d.contentDigest, ChargedSize(d, req.content)) && Countable(s, d)
    ensures PublishLocked(h, s, req, d).0.Returned? ==>
      var t := PublishLocked(h, s, req, d).1;
      && d.id in t.artifacts
      && var e := t.artifacts[d.id];
      && e == d.(dependencyDigest := e.dependencyDigest, metadataDigest := e.metadataDigest,
                 compatibilityDigest := e.compatibilityDigest, validation := INTEGRITY_OK, lifecycle := PUBLISHED)
      && t.nextGeneration == if s.nextGeneration > d.generation then s.nextGeneration else d.generation + 1
  {
    hide WellFormed, Enter, Keep, Link, Sign, ToI64, Encodable, Fits, Chargeable;
    var size := ChargedSize(d, req.content);
    KeepReturnsIff(s, d.contentDigest, req.content, size);
    KeepSame(s, d.contentDigest, req.content, size);
    var s1 := Keep(s, d.contentDigest, req.content, size).1;
    StoreKeeps(s, s1);
    GraphOf(s1);
    var b := d.(lifecycle := BUILDING);
    assert Encodable(b) <==> Encodable(d) by { SameLimits(d, b); }
    LinkReturnsIff(s.graph, d.id, d.dependencies);
    EnterReturnsIff(h, s1, b);
    if PublishLocked(h, s, req, d).0.Returned? {
      EnterEffect(h, s1, b);
      SignReturnsIff(h, Link(s1.graph, b.id, b.dependencies).1, b);
    }
  }

  lemma SameLimits(d: Descriptor, e: Descriptor)
    requires e == d.(lifecycle := e.lifecycle)
    ensures Encodable(e) <==> Encodable(d)
  {
    assert e.placements == d.placements;
  }

  lemma KeepReturnsIff(s: State, cd: Digest, content: Bytes, size: int)
    ensures Keep(s, cd, content, size).0.Returned? <==> Chargeable(s, cd, size)
    ensures Keep(s, cd, content, size).0.Returned? ==>
      && Keep(s, cd, content, size).1.counters.logicalBytes == s.counters.logicalBytes
      && Keep(s, cd, content, size).1.counters.activeReferences == s.counters.activeReferences
      && Keep(s, cd, content, size).1.nextGeneration == s.nextGeneration
  {
    hide Up;
  }

  /** `publish` returns normally exactly when: the fence is passed; the descriptor is within the
      limits of the encoder; its identifier is free and its generation not stale; its
      dependencies are distinct, not the artifact itself, not linked from it already, and close
      no cycle; the graph has room for the nodes; no counter would become negative; and there
      is a generation after its own. */
  lemma PublishReturnsIff(h: Bytes -> Digest, s: State, req: PublishRequest)
    requires WellFormed(s)
    ensures Do(h, s, Publish(req)).0.Returned? <==>
      && Fence(s.epoch, s.boot, req.authority).Returned? && Encodable(req.descriptor)
      && var d := Completed(h, s.nextGeneration, req);
      && Admissible(s, req.authority, d)
      && Chargeable(s, h(req.content), ChargedSize(d, req.content)) && Countable(s, d)
  {
    hide WellFormed, PublishLocked, Admissible, Countable, Chargeable, Completed, DeriveId;
    CompleteReturns(h, s.nextGeneration, req);
    if TextFits(req.descriptor) {
      CompletedFields(h, s.nextGeneration, req);
      LockedReturnsIff(h, s, req, Completed(h, s.nextGeneration, req));
    } else if req.descriptor.id != 0 {
      CompleteLimits(h, s.nextGeneration, req);
      LockedReturnsIff(h, s, req, Complete(h, s.nextGeneration, req).value);
    }
  }

  /** What is filled in, and what is left as it was requested. */
  lemma CompletedFields(h: Bytes -> Digest, next: U64, req: PublishRequest)
    requires TextFits(req.descriptor)
    ensures var d := Completed(h, next, req); var e := req.descriptor;
      && Complete(h, next, req) == Returned(d) && (Encodable(d) <==> Encodable(e))
      && (e.id != 0 ==> d.id == e.id)
      && d == e.(id := d.id, contentDigest := h(req.content), producer := d.producer,
                 producerGeneration := d.producerGeneration, generation := if e.generation == 0 then next else e.generation)
  {
    hide DeriveId;
    CompleteReturns(h, next, req);
    assert Completed(h, next, req).placements == req.descriptor.placements;
  }

  lemma CompleteLimits(h: Bytes -> Digest, next: U64, req: PublishRequest)
    requires Complete(h, next, req).Returned?
    ensures Encodable(Complete(h, next, req).value) <==> Encodable(req.descriptor)
  {
    hide DeriveId;
    assert Complete(h, next, req).value.placements == req.descriptor.placements;
  }

  /** After any calls whatsoever, no counter stands in the way of a publication whose declared
      size is below 2^63: the other conditions alone decide. */
  lemma OrdinaryPublishReturnsIff(h: Bytes -> Digest, calls: seq<Call>, req: PublishRequest)
    requires req.descriptor.sizeBytes < 0x8000_0000_0000_0000
    ensures var s := After(h, calls);
      Do(h, s, Publish(req)).0.Returned? <==>
        && Fence(s.epoch, s.boot, req.authority).Returned? && Encodable(req.descriptor)
        && var d := Completed(h, s.nextGeneration, req);
        && Admissible(s, req.authority, d) && (s.nextGeneration > d.generation || d.generation < U64_MAX)
  {
    hide After, WellFormed, Do, Admissible, Encodable, Fence;
    var s := After(h, calls);
    PublishReturnsIff(h, s, req);
    GuardedNeverNegative(h, calls);
    if TextFits(req.descriptor) { CompletedFields(h, s.nextGeneration, req); }
    if Encodable(req.descriptor) { LimitsText(req.descriptor); }
  }

  lemma LimitsText(d: Descriptor)
    requires Encodable(d)
    ensures TextFits(d)
  {
  }

  // ---- generations ----------------------------------------------------------------------

  /** The next generation is above every generation that was ever set. */
  ghost predicate Above(s: State) {
    forall id :: id in s.artifacts ==> s.artifacts[id].generation == 0 || s.artifacts[id].generation < s.nextGeneration
  }

  lemma PublishKeepsAbove(h: Bytes -> Digest, s: State, req: PublishRequest)
    requires WellFormed(s) && Above(s) && Do(h, s, Publish(req)).0.Returned?
    ensures Above(Do(h, s, Publish(req)).1)
  {
    hide WellFormed, PublishLocked, Complete, Published, Encodable, Admissible, Chargeable, Countable;
    var d := Complete(h, s.nextGeneration, req).value;
    CompleteFields(h, s.nextGeneration, req);
    PublishEffect(h, s, req, d);
    LockedReturnsIff(h, s, req, d);
    OneEntered(h, s, PublishLocked(h, s, req, d).1, req, d.id);
  }

  lemma OneEntered(h: Bytes -> Digest, s: State, t: State, req: PublishRequest, id: Id)
    requires id in t.artifacts && Published(h, s, t, req, t.artifacts[id])
    ensures t.artifacts == s.artifacts[t.artifacts[id].id := t.artifacts[id]]
  {
    hide Encodable, Link, Valid, Stored, ToI64;
  }

  lemma ReturnKeepsAbove(h: Bytes -> Digest, s: State, c: Call)
    requires WellFormed(s) && Above(s) && Do(h, s, c).0.Returned?
    ensures Above(Do(h, s, c).1)
  {
    if c.Publish? {
      PublishKeepsAbove(h, s, c.request);
    } else if c.Register? {
      hide WellFormed;
    } else {
      hide WellFormed, Do, RelabelledOne, Published, Above, ToI64, CanTransition, Released;
      var t := Do(h, s, c).1;
      Effects(h, s, c);
      SameGenerations(s, t);
    }
  }

  lemma SameGenerations(s: State, t: State)
    requires Above(s) && (Relabelled(s, t) || exists id :: RetiredOne(s, t, id))
    ensures Above(t)
  {
    hide Moved, CanTransition, ToI64, Released;
    if Relabelled(s, t) {
      forall id | id in t.artifacts ensures t.artifacts[id].generation == s.artifacts[id].generation {
        assert RelabelledOne(s.artifacts[id], t.artifacts[id]);
      }
    }
  }

  /** While every call returns, each publication that leaves its generation open is given one
      above all that were set before. */
  lemma {:induction false} GenerationsGrow(h: Bytes -> Digest, calls: seq<Call>)
    requires AllReturn(h, calls)
    ensures Above(After(h, calls))
  {
    if calls != [] {
      hide Do, WellFormed, Above;
      GenerationsGrow(h, calls[..|calls| - 1]);
      ReturnKeepsAbove(h, After(h, calls[..|calls| - 1]), calls[|calls| - 1]);
    } else {
      assert Above(NEW_CATALOG);
    }
  }
}
