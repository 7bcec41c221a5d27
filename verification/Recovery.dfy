/** Saving a catalog and loading the image into any other: what comes back, and when. */
module Recovery {
  import opened Types
  import opened Collections
  import opened Sorting
  import opened Accounting
  import Invalidation
  import Lifecycle
  import opened Codec
  import opened CrcFrames
  import opened DescriptorFormat
  import opened GraphModel
  import opened CatalogModel
  import opened CatalogEffects
  import opened CatalogRuns
  import opened References
  import opened Ledger
  import opened CatalogImage

  // ---- the image decodes ----------------------------------------------------------------

  ghost predicate AllStorable(m: map<Id, Descriptor>) {
    forall id :: id in m ==> Storable(m[id])
  }

  ghost predicate ContentsFit(store: map<Digest, Content>) {
    forall cd :: cd in store ==> |store[cd].bytes| <= MAX_FIELD
  }

  /** Counts and successor lists are within 32 bits. */
  ghost predicate CountsFit(s: State) {
    && |s.artifacts| <= MAX_U32 && |s.store| <= MAX_U32 && |s.successors| <= MAX_U32
    && forall id :: id in s.successors ==> |s.successors[id]| <= MAX_U32
  }

  lemma DescriptorsOk(s: State)
    requires AllStorable(s.artifacts) && |s.artifacts| <= MAX_U32
    ensures ListF(DescriptorF(), MAX_U32).ok(SavedDescriptors(s))
  {
    hide Storable, DescriptorF, ListF;
    var ids, ds := SortedIds(s.artifacts.Keys), SavedDescriptors(s);
    forall i | 0 <= i < |ds| ensures DescriptorF().ok(ds[i]) {
      assert ids[i] in ids;
      StorableIsOk(ds[i]);
    }
    ListOk(DescriptorF(), ds);
  }

  lemma ListOk<T(!new)>(c: Format<T>, xs: seq<T>)
    requires |xs| <= MAX_U32 && forall i :: 0 <= i < |xs| ==> c.ok(xs[i])
    ensures ListF(c, MAX_U32).ok(xs)
  {
  }

  lemma ContentsOk(s: State)
    requires ContentsFit(s.store) && |s.store| <= MAX_U32
    ensures ListF(ContentF(), MAX_U32).ok(SavedContents(s))
  {
    var cds, cs := SortedDigests(s.store.Keys), SavedContents(s);
    forall i | 0 <= i < |cs| ensures ContentF().ok(cs[i]) {
      assert cds[i] in cds;
    }
  }

  lemma SuccessorsOk(s: State)
    requires |s.successors| <= MAX_U32 && forall id :: id in s.successors ==> |s.successors[id]| <= MAX_U32
    ensures ListF(SuccessorF(), MAX_U32).ok(SavedSuccessors(s))
  {
    var ids, ss := SortedIds(s.successors.Keys), SavedSuccessors(s);
    forall i | 0 <= i < |ss| ensures SuccessorF().ok(ss[i]) {
      assert ids[i] in ids;
    }
  }

  lemma StorableSavable(s: State)
    requires AllStorable(s.artifacts) && ContentsFit(s.store)
    ensures Savable(s)
  {
    hide Encodable;
  }

  /** Within the limits, the image reads back as what was saved. */
  lemma ImageReadsBack(s: State)
    requires AllStorable(s.artifacts) && ContentsFit(s.store) && CountsFit(s)
    ensures Savable(s) && Decode(ImageF(), Seal(ImageF().put(ImageOf(s)))) == Returned(ImageOf(s))
  {
    hide DescriptorF, ContentF, SuccessorF, AllStorable, ContentsFit, SavedDescriptors, SavedContents, SavedSuccessors,
      ListF, MarkF;
    StorableSavable(s);
    DescriptorsOk(s);
    ContentsOk(s);
    SuccessorsOk(s);
    MarkLaw(IMAGE_MAGIC, BadMagic);
    MarkLaw(IMAGE_SCHEMA, BadSchema);
    ImageLaw();
    DecodeReadsBack(ImageF(), ImageOf(s));
  }

  // ---- maps come back -------------------------------------------------------------------

  lemma {:induction false} StoreBack(m: map<Digest, Content>, cds: seq<Digest>)
    requires forall i :: 0 <= i < |cds| ==> cds[i] in m
    ensures StoreOf(ContentsAt(m, cds)) == map cd | cd in cds :: m[cd]
  {
    if cds != [] {
      var init := cds[..|cds| - 1];
      StoreBack(m, init);
      assert ContentsAt(m, cds)[..|init|] == ContentsAt(m, init);
      assert cds == init + [cds[|init|]];
    }
  }

  lemma {:induction false} SuccessorsBack(m: map<Id, seq<Id>>, ids: seq<Id>)
    requires forall i :: 0 <= i < |ids| ==> ids[i] in m
    ensures SuccessorsOf(SuccessorsAt(m, ids)) == map id | id in ids :: m[id]
  {
    if ids != [] {
      var init := ids[..|ids| - 1];
      SuccessorsBack(m, init);
      assert SuccessorsAt(m, ids)[..|init|] == SuccessorsAt(m, init);
      assert ids == init + [ids[|init|]];
    }
  }

  lemma MapsBack(s: State)
    ensures StoreOf(SavedContents(s)) == s.store && SuccessorsOf(SavedSuccessors(s)) == s.successors
  {
    var cds, ids := SortedDigests(s.store.Keys), SortedIds(s.successors.Keys);
    assert forall i :: 0 <= i < |cds| ==> cds[i] in cds;
    assert forall i :: 0 <= i < |ids| ==> ids[i] in ids;
    StoreBack(s.store, cds);
    SuccessorsBack(s.successors, ids);
    assert (map cd | cd in cds :: s.store[cd]) == s.store;
    assert (map id | id in ids :: s.successors[id]) == s.successors;
  }

  // ---- the graph comes back -------------------------------------------------------------

  /** `g` has no node and no edge that `big` lacks. */
  ghost predicate Within(g: Graph, big: Graph) {
    g.nodes <= big.nodes && forall a, b :: Edge(g, a, b) ==> Edge(big, a, b)
  }

  lemma {:induction false} WithinReaches(g: Graph, big: Graph, a: Id, b: Id)
    requires Within(g, big) && Reaches(g, a, b)
    ensures Reaches(big, a, b)
  {
    var p :| Joins(g, p, a, b);
    assert Joins(big, p, a, b);
  }

  lemma CycleDepends(g: Graph, a: Id, b: Id)
    requires Edge(g, a, b) && Reaches(g, b, a)
    ensures DependsOn(g, a, a)
  {
    assert Through(g, a, b, a);
  }

  /** An edge of an acyclic graph is never rejected while only parts of that graph have been
      rebuilt. */
  lemma EdgeAccepted(g: Graph, big: Graph, id: Id, dep: DependencyRef)
    requires Valid(big) && Within(g, big) && id in g.nodes && dep.artifact in g.nodes && Valid(g)
    requires Edge(big, id, dep.artifact) && !Edge(g, id, dep.artifact)
    ensures AddEdge(g, id, dep).0.Returned? && Within(AddEdge(g, id, dep).1, big)
  {
    NoSelfEdge(big, id);
    if Reaches(g, dep.artifact, id) {
      WithinReaches(g, big, dep.artifact, id);
      CycleDepends(big, id, dep.artifact);
    }
    WithEdgeEdges(g, id, dep);
  }

  lemma EdgeEffect(g: Graph, id: Id, dep: DependencyRef)
    requires Valid(g) && AddEdge(g, id, dep).0.Returned?
    ensures var k := AddEdge(g, id, dep).1; k.nodes == g.nodes && Direct(k, id) == Direct(g, id) + [dep]
  {
  }

  lemma NodeAccepted(g: Graph, big: Graph, n: Id)
    requires Valid(g) && Within(g, big) && n in big.nodes && |big.nodes| < MAX_NODES
    ensures AddNode(g, n).0.Returned? && Within(AddNode(g, n).1, big) && n in AddNode(g, n).1.nodes
    ensures forall a :: Direct(AddNode(g, n).1, a) == Direct(g, a)
  {
    SubsetSize(g.nodes, big.nodes);
    NodeEffect(g, n);
    forall a, b ensures Edge(AddNode(g, n).1, a, b) <==> Edge(g, a, b) {
      assert Direct(AddNode(g, n).1, a) == Direct(g, a);
    }
  }

  lemma TargetSplit(all: seq<DependencyRef>, before: seq<DependencyRef>, deps: seq<DependencyRef>)
    requires deps != [] && all == before + deps && Distinct(Targets(all))
    ensures deps[0].artifact in Targets(all) && deps[0].artifact !in Targets(before)
  {
    assert Targets(all) == Targets(before) + Targets(deps);
    assert Targets(all)[|before|] == deps[0].artifact;
    forall j | 0 <= j < |before| ensures Targets(before)[j] != deps[0].artifact {
      assert Targets(all)[j] == Targets(before)[j];
    }
  }

  lemma {:induction false} LinkAllAccepted(g: Graph, big: Graph, id: Id, before: seq<DependencyRef>, deps: seq<DependencyRef>)
    requires Valid(g) && Valid(big) && |big.nodes| < MAX_NODES && Within(g, big) && id in g.nodes
    requires Direct(g, id) == before && Direct(big, id) == before + deps && Distinct(Targets(before + deps))
    ensures LinkAll(g, id, deps).0.Returned? && Within(LinkAll(g, id, deps).1, big)
    decreases |deps|
  {
    if deps != [] {
      hide Valid, Within, AddNode, AddEdge, Distinct;
      var dep := deps[0];
      TargetSplit(before + deps, before, deps);
      EdgeInNodes(big, id, dep.artifact);
      AddNodeKeepsValid(g, dep.artifact);
      NodeAccepted(g, big, dep.artifact);
      var g1 := if dep.artifact in g.nodes then g else AddNode(g, dep.artifact).1;
      EdgeAccepted(g1, big, id, dep);
      AddEdgeKeepsValid(g1, id, dep);
      EdgeEffect(g1, id, dep);
      var g2 := AddEdge(g1, id, dep).1;
      NodeGrows(g, dep.artifact, id);
      assert before + deps == (before + [dep]) + deps[1..];
      LinkAllAccepted(g2, big, id, before + [dep], deps[1..]);
    }
  }

  lemma NodeGrows(g: Graph, n: Id, id: Id)
    requires id in g.nodes
    ensures id in AddNode(g, n).1.nodes
  {
  }

  lemma EdgeInNodes(g: Graph, a: Id, b: Id)
    requires Valid(g) && Edge(g, a, b)
    ensures a in g.nodes && b in g.nodes && Distinct(Targets(Direct(g, a)))
  {
    assert NoRepeats(g, a);
  }

  lemma LinkAccepted(g: Graph, big: Graph, id: Id, deps: seq<DependencyRef>)
    requires Valid(g) && Valid(big) && |big.nodes| < MAX_NODES && Within(g, big) && id in big.nodes
    requires Direct(g, id) == [] && Direct(big, id) == deps
    ensures Link(g, id, deps).0 == Returned(()) && Within(Link(g, id, deps).1, big)
  {
    hide Within, AddNode, LinkAll;
    AddNodeKeepsValid(g, id);
    NodeAccepted(g, big, id);
    assert NoRepeats(big, id);
    assert [] + deps == deps;
    LinkAllAccepted(AddNode(g, id).1, big, id, [], deps);
    UnitOutcome(Link(g, id, deps).0);
  }

  // ---- restoring the descriptors --------------------------------------------------------

  /** `t` holds some of the artifacts of `s`, linked as in `s`. */
  ghost predicate PartOf(t: State, s: State) {
    && (forall id :: id in t.artifacts ==> id in s.artifacts && t.artifacts[id] == s.artifacts[id])
    && Linked(t) && Within(t.graph, s.graph) && t.indexed == {}
  }

  lemma RestoreOne(t: State, s: State, d: Descriptor)
    requires WellFormed(t) && WellFormed(s) && Linked(s) && |s.graph.nodes| < MAX_NODES
    requires PartOf(t, s) && d.id in s.artifacts && d == s.artifacts[d.id] && d.id !in t.artifacts
    ensures Link(t.graph, d.id, d.dependencies).0.Returned?
    ensures PartOf(t.(artifacts := t.artifacts[d.id := d], graph := Link(t.graph, d.id, d.dependencies).1), s)
  {
    hide Valid, Link, Within, Linked;
    DirectIs(s, d.id);
    DirectIs(t, d.id);
    LinkAccepted(t.graph, s.graph, d.id, d.dependencies);
    LinkOne(t, t.(artifacts := t.artifacts[d.id := d], graph := Link(t.graph, d.id, d.dependencies).1), d);
  }

  lemma DirectIs(s: State, id: Id)
    requires Linked(s)
    ensures Direct(s.graph, id) == DependenciesIn(s.artifacts, id)
    ensures id in s.artifacts ==> id in s.graph.nodes
  {
  }

  /** Identifiers of `all`, each once, that are not in `part` yet. */
  ghost predicate ToRestore(all: map<Id, Descriptor>, part: map<Id, Descriptor>, ids: seq<Id>) {
    Distinct(ids) && forall i :: 0 <= i < |ids| ==> ids[i] in all && ids[i] !in part
  }

  lemma NextToRestore(all: map<Id, Descriptor>, part: map<Id, Descriptor>, ids: seq<Id>, d: Descriptor)
    requires ids != [] && ToRestore(all, part, ids) && d.id == ids[0]
    ensures ToRestore(all, part[d.id := d], ids[1..])
    ensures DescriptorsAt(all, ids)[1..] == DescriptorsAt(all, ids[1..])
  {
  }

  lemma {:induction false} RestoreAll(t: State, s: State, ids: seq<Id>)
    requires WellFormed(t) && WellFormed(s) && Linked(s) && |s.graph.nodes| < MAX_NODES && PartOf(t, s)
    requires ToRestore(s.artifacts, t.artifacts, ids)
    ensures Restore(t, DescriptorsAt(s.artifacts, ids)).0.Returned?
    ensures PartOf(Restore(t, DescriptorsAt(s.artifacts, ids)).1, s)
    ensures Restore(t, DescriptorsAt(s.artifacts, ids)).1.artifacts.Keys == t.artifacts.Keys + Elements(ids)
    decreases |ids|
  {
    if ids == [] {
      assert Elements(ids) == {};
    } else {
      hide WellFormed, Linked, Link, PartOf, Elements, Restore;
      GraphOf(t);
      GraphOf(s);
      var ds, d := DescriptorsAt(s.artifacts, ids), s.artifacts[ids[0]];
      IdsMatch(s, ids[0]);
      RestoreOne(t, s, d);
      PartIndexed(t, s);
      var t1 := t.(artifacts := t.artifacts[d.id := d], graph := Link(t.graph, d.id, d.dependencies).1);
      AddArtifact(t, t1, d);
      RestoreStep(t, ds);
      NextToRestore(s.artifacts, t.artifacts, ids, d);
      RestoreAll(t1, s, ids[1..]);
      KeysPlus(t.artifacts, d, ids);
    }
  }

  lemma RestoreStep(t: State, ds: seq<Descriptor>)
    requires WellFormed(t) && t.indexed == {} && ds != [] && ds[0].id !in t.artifacts
    requires Link(t.graph, ds[0].id, ds[0].dependencies).0.Returned?
    ensures var d := ds[0];
      var t1 := t.(artifacts := t.artifacts[d.id := d], graph := Link(t.graph, d.id, d.dependencies).1);
      WellFormed(t1) && Restore(t, ds) == Restore(t1, ds[1..])
  {
    hide Link;
  }

  lemma KeysPlus(m: map<Id, Descriptor>, d: Descriptor, ids: seq<Id>)
    requires ids != [] && d.id == ids[0]
    ensures m[d.id := d].Keys + Elements(ids[1..]) == m.Keys + Elements(ids)
  {
    assert ids == [ids[0]] + ids[1..];
  }

  lemma PartIndexed(t: State, s: State)
    requires PartOf(t, s)
    ensures t.indexed == {}
  {
  }

  lemma ClearedIsPart(target: State, s: State)
    ensures WellFormed(Cleared(target)) && PartOf(Cleared(target), s)
  {
    ClearedWellFormed(target);
    assert forall a, b :: !Edge(EMPTY, a, b);
  }

  /** The graph of a linked catalog is determined by its artifacts. */
  lemma SameGraph(t: State, s: State)
    requires WellFormed(t) && WellFormed(s) && Linked(t) && Linked(s) && t.artifacts == s.artifacts
    ensures t.graph.nodes == s.graph.nodes && forall a :: Direct(t.graph, a) == Direct(s.graph, a)
  {
    forall n ensures n in t.graph.nodes <==> n in s.graph.nodes {
      NodesAreUsed(t, n);
      NodesAreUsed(s, n);
    }
  }

  lemma NodesAreUsed(s: State, n: Id)
    requires WellFormed(s) && Linked(s)
    ensures n in s.graph.nodes <==> Used(s.artifacts, n)
  {
    if n !in s.artifacts && Used(s.artifacts, n) {
      var a :| a in s.artifacts && n in Targets(s.artifacts[a].dependencies);
      assert Direct(s.graph, a) == DependenciesIn(s.artifacts, a);
      assert Edge(s.graph, a, n);
    }
  }

  // ---- the reverse relation -------------------------------------------------------------

  function At(m: map<Id, seq<Id>>, k: Id): seq<Id> {
    if k in m then m[k] else []
  }

  /** `a` is listed before `b` as often as `b` is listed after `a`. */
  ghost predicate InverseAtPair(pred: map<Id, seq<Id>>, succ: map<Id, seq<Id>>, a: Id, b: Id) {
    multiset(At(pred, b))[a] == multiset(At(succ, a))[b]
  }

  ghost predicate InverseOf(pred: map<Id, seq<Id>>, succ: map<Id, seq<Id>>) {
    forall a, b :: InverseAtPair(pred, succ, a, b)
  }

  lemma PushCount(m: map<Id, seq<Id>>, k: Id, v: Id, b: Id, a: Id)
    ensures multiset(At(Push(m, k, v), b))[a] == multiset(At(m, b))[a] + if b == k && a == v then 1 else 0
  {
    if b == k { assert multiset(At(m, k) + [v]) == multiset(At(m, k)) + multiset{v}; }
  }

  lemma {:induction false} PushAllCount(m: map<Id, seq<Id>>, k: Id, vs: seq<Id>, b: Id, a: Id)
    ensures multiset(At(PushAll(m, k, vs), b))[a] == multiset(At(m, b))[a] + if a == k then multiset(vs)[b] else 0
  {
    if vs != [] {
      var init, v := vs[..|vs| - 1], vs[|vs| - 1];
      PushAllCount(m, k, init, b, a);
      PushCount(PushAll(m, k, init), v, k, b, a);
      assert vs == init + [v];
      hide PushAll, Push, At;
    }
  }

  lemma {:induction false} ReversedCount(succ: map<Id, seq<Id>>, keys: seq<Id>, b: Id, a: Id)
    requires Distinct(keys) && forall i :: 0 <= i < |keys| ==> keys[i] in succ
    ensures multiset(At(Reversed(succ, keys), b))[a] == if a in keys then multiset(succ[a])[b] else 0
  {
    if keys != [] {
      var init, k := keys[..|keys| - 1], keys[|keys| - 1];
      ReversedCount(succ, init, b, a);
      PushAllCount(Reversed(succ, init), k, succ[k], b, a);
      assert keys == init + [k];
    }
  }

  lemma PredecessorsInvert(succ: map<Id, seq<Id>>)
    ensures InverseOf(Predecessors(succ), succ)
  {
    var keys := SortedIds(succ.Keys);
    assert forall i :: 0 <= i < |keys| ==> keys[i] in keys;
    forall a, b ensures InverseAtPair(Predecessors(succ), succ, a, b) {
      ReversedCount(succ, keys, b, a);
      hide Reversed;
    }
  }

  lemma PushBoth(pred: map<Id, seq<Id>>, succ: map<Id, seq<Id>>, replaced: Id, successor: Id)
    requires InverseOf(pred, succ)
    ensures InverseOf(Push(pred, successor, replaced), Push(succ, replaced, successor))
  {
    hide Push, At;
    forall a, b ensures InverseAtPair(Push(pred, successor, replaced), Push(succ, replaced, successor), a, b) {
      assert InverseAtPair(pred, succ, a, b);
      PushCount(pred, successor, replaced, b, a);
      PushCount(succ, replaced, successor, a, b);
    }
  }

  lemma PublishSuccessors(h: Bytes -> Digest, s: State, req: PublishRequest, d: Descriptor)
    requires WellFormed(s) && PublishLocked(h, s, req, d).0.Returned?
    ensures PublishLocked(h, s, req, d).1.successors == s.successors
    ensures PublishLocked(h, s, req, d).1.predecessors == s.predecessors
  {
    hide WellFormed, Enter, Keep, Link, Sign, ToI64;
    var size := ChargedSize(d, req.content);
    KeepSame(s, d.contentDigest, req.content, size);
    var s1 := Keep(s, d.contentDigest, req.content, size).1;
    StoreKeeps(s, s1);
    EnterEffect(h, s1, d.(lifecycle := BUILDING));
  }

  lemma RetireSuccessors(s: State, id: Id)
    requires RetireLocked(s, id).0.Returned?
    ensures RetireLocked(s, id).1.successors == s.successors
    ensures RetireLocked(s, id).1.predecessors == s.predecessors
  {
    hide RetireLocked, Released, ToI64, Down, Lifecycle.CanTransition;
    RetireEffect(s, id);
  }

  lemma ReturnKeepsInverse(h: Bytes -> Digest, s: State, c: Call)
    requires WellFormed(s) && InverseOf(s.predecessors, s.successors) && Do(h, s, c).0.Returned?
    ensures InverseOf(Do(h, s, c).1.predecessors, Do(h, s, c).1.successors)
  {
    hide WellFormed, InverseOf, Complete, PublishLocked, RetireLocked, InvalidateLocked, SupersedeLocked, QuarantineLocked,
      Move, Push;
    match c
    case Publish(req) => PublishSuccessors(h, s, req, Complete(h, s.nextGeneration, req).value);
    case Retire(id, a) => RetireSuccessors(s, id);
    case Invalidate(id, cause, a) => InvalidateSuccessors(s, id, cause, a);
    case Supersede(id, successor, a) =>
      SupersedeSuccessors(s, id, successor, a);
      PushBoth(s.predecessors, s.successors, id, successor);
    case SetAside(id, record, a) => SetAsideSuccessors(s, id, record);
    case Validate(id, report, a) =>
      MoveSuccessors(s, id, s.artifacts[id].(validation := report.state), if report.AllOk() then VALID else FAILED);
    case Promote(id, a) => MoveSuccessors(s, id, s.artifacts[id], ACTIVE);
    case _ =>
  }

  lemma MoveSuccessors(s: State, id: Id, d: Descriptor, to: LifecycleState)
    requires id in s.artifacts
    ensures Move(s, id, d, to).1.successors == s.successors && Move(s, id, d, to).1.predecessors == s.predecessors
  {
    hide Lifecycle.CanTransition;
  }

  lemma SupersedeSuccessors(s: State, id: Id, successor: Id, a: Authority)
    requires SupersedeLocked(s, id, successor, a).0.Returned?
    ensures SupersedeLocked(s, id, successor, a).1.successors == Push(s.successors, id, successor)
    ensures SupersedeLocked(s, id, successor, a).1.predecessors == Push(s.predecessors, successor, id)
  {
    hide Push, Move;
    MoveSuccessors(s, id, s.artifacts[id], SUPERSEDED);
  }

  lemma SetAsideSuccessors(s: State, id: Id, record: Quarantine)
    ensures QuarantineLocked(s, id, record).1.successors == s.successors
    ensures QuarantineLocked(s, id, record).1.predecessors == s.predecessors
  {
    hide Push, Move;
    if id in s.artifacts { MoveSuccessors(s, id, s.artifacts[id].(validation := QUARANTINE), QUARANTINED); }
  }

  lemma InvalidateSuccessors(s: State, id: Id, cause: Bytes, a: Authority)
    requires WellFormed(s) && InvalidateLocked(s, id, cause, a).0.Returned?
    ensures InvalidateLocked(s, id, cause, a).1.successors == s.successors
    ensures InvalidateLocked(s, id, cause, a).1.predecessors == s.predecessors
  {
    hide WellFormed, InvalidateFrom, Invalidation.AllCan, Invalidation.Hit;
    Invalidation.InvalidationIsExact(s, id, cause, a);
    Invalidation.HitCan(s, id);
  }

  lemma {:induction false} RunKeepsInverse(h: Bytes -> Digest, calls: seq<Call>)
    requires AllReturn(h, calls)
    ensures InverseOf(After(h, calls).predecessors, After(h, calls).successors)
  {
    if calls != [] {
      hide Do, InverseOf, WellFormed;
      RunKeepsInverse(h, calls[..|calls| - 1]);
      ReturnKeepsInverse(h, After(h, calls[..|calls| - 1]), calls[|calls| - 1]);
    } else {
      forall a, b ensures InverseAtPair(map[], map[], a, b) {}
    }
  }

  /** Two inverses of the same relation list the same identifiers. */
  lemma InverseUnique(p: map<Id, seq<Id>>, q: map<Id, seq<Id>>, succ: map<Id, seq<Id>>, b: Id)
    requires InverseOf(p, succ) && InverseOf(q, succ)
    ensures multiset(At(p, b)) == multiset(At(q, b))
  {
    forall a ensures multiset(At(p, b))[a] == multiset(At(q, b))[a] {
      assert InverseAtPair(p, succ, a, b) && InverseAtPair(q, succ, a, b);
    }
  }

  // ---- the counters ---------------------------------------------------------------------

  /** A store restricted to the given digests. */
  function Only(store: map<Digest, Content>, cds: seq<Digest>): map<Digest, Content> {
    map cd | cd in cds && cd in store :: store[cd]
  }

  lemma OnlySnoc(store: map<Digest, Content>, cds: seq<Digest>)
    requires cds != [] && Distinct(cds) && cds[|cds| - 1] in store
    ensures var cd := cds[|cds| - 1]; var init := cds[..|cds| - 1];
      && cd !in Only(store, init)
      && Lengths(Only(store, cds)) == Lengths(Only(store, init))[cd := |store[cd].bytes|]
      && Counts(Only(store, cds)) == Counts(Only(store, init))[cd := store[cd].references]
  {
    hide Only, Lengths, Counts;
    var init, cd := cds[..|cds| - 1], cds[|cds| - 1];
    assert cd !in init;
    OnlyMore(store, init, cd);
    assert cds == init + [cd];
    MeasuresMore(Only(store, init), cd, store[cd]);
  }

  lemma OnlyMore(store: map<Digest, Content>, init: seq<Digest>, cd: Digest)
    requires cd in store && cd !in init
    ensures cd !in Only(store, init) && Only(store, init + [cd]) == Only(store, init)[cd := store[cd]]
  {
  }

  lemma MeasuresMore(m: map<Digest, Content>, cd: Digest, x: Content)
    requires cd !in m
    ensures Lengths(m[cd := x]) == Lengths(m)[cd := |x.bytes|] && Counts(m[cd := x]) == Counts(m)[cd := x.references]
  {
  }

  ghost predicate SmallCounts(store: map<Digest, Content>) {
    forall cd :: cd in store ==> store[cd].references < 0x8000_0000_0000_0000
  }

  lemma {:induction false} TallyIs(c: Counters, store: map<Digest, Content>, cds: seq<Digest>)
    requires Distinct(cds) && (forall i :: 0 <= i < |cds| ==> cds[i] in store) && SmallCounts(store)
    requires c.activeReferences >= 0
    ensures Total(Counts(Only(store, cds))) >= 0
    ensures Tally(c, store, cds) == (Returned(()), c.(
      physicalBacking := c.physicalBacking + |cds|,
      physicalBytes := c.physicalBytes + Total(Lengths(Only(store, cds))),
      activeReferences := c.activeReferences + Total(Counts(Only(store, cds)))))
  {
    if cds == [] {
      assert Lengths(Only(store, cds)) == map[] && Counts(Only(store, cds)) == map[];
    } else {
      hide Lengths, Counts, Only, Total;
      var init, cd := cds[..|cds| - 1], cds[|cds| - 1];
      TallyIs(c, store, init);
      OnlySnoc(store, cds);
      TotalAdd(Lengths(Only(store, init)), cd, |store[cd].bytes|);
      TotalAdd(Counts(Only(store, init)), cd, store[cd].references);
    }
  }

  /** Recounting succeeds exactly when the signed sizes do not add up to less than zero. */
  lemma RecountIs(m: map<Id, Descriptor>, store: map<Digest, Content>)
    requires SmallCounts(store)
    ensures Recount(m, store).0.Returned? <==> Total(SignedSizes(m)) >= 0
    ensures Recount(m, store).0.Returned? ==> var c := Recount(m, store).1;
      && c.logicalArtifacts == |m| && c.logicalBytes == Total(SignedSizes(m))
      && c.physicalBacking == |store| && c.physicalBytes == Total(Lengths(store))
      && c.activeReferences == Total(Counts(store))
  {
    hide Total, SignedSizes, Lengths, Counts;
    var cds := SortedDigests(store.Keys);
    assert forall i :: 0 <= i < |cds| ==> cds[i] in cds;
    assert Only(store, cds) == store;
    AscendingDistinct(cds);
    if Total(SignedSizes(m)) >= 0 {
      TallyIs(NO_COUNTS.(logicalArtifacts := |m|, logicalBytes := Total(SignedSizes(m))), store, cds);
    }
  }

  lemma AscendingDistinct(r: seq<int>)
    requires Ascending(r)
    ensures Distinct(r)
  {
  }

  // ---- what the runs keep ---------------------------------------------------------------

  /** The placements of a request have finite numbers. */
  predicate FiniteCall(c: Call) {
    c.Publish? ==> forall i :: 0 <= i < |c.request.descriptor.placements| ==>
      FinitePlacement(c.request.descriptor.placements[i])
  }

  predicate AllFinite(calls: seq<Call>) {
    forall i :: 0 <= i < |calls| ==> FiniteCall(calls[i])
  }

  /** Every published content is within the limit of an opaque field. */
  ghost predicate SmallContents(contents: set<Bytes>) {
    forall x :: x in contents ==> |x| <= MAX_FIELD
  }

  lemma SameStorable(d: Descriptor, e: Descriptor)
    requires SameArtifact(d, e) && Storable(d)
    ensures Storable(e)
  {
  }

  lemma SameAllStorable(m: map<Id, Descriptor>, n: map<Id, Descriptor>)
    requires SameContents(m, n) && AllStorable(m)
    ensures AllStorable(n)
  {
    hide SameArtifact, Storable;
    forall id | id in n ensures Storable(n[id]) { SameStorable(m[id], n[id]); }
  }

  lemma OneMoreStorable(m: map<Id, Descriptor>, d: Descriptor)
    requires AllStorable(m) && Storable(d)
    ensures AllStorable(m[d.id := d])
  {
    hide Storable;
  }

  lemma PublishedStorable(h: Bytes -> Digest, s: State, t: State, req: PublishRequest, d: Descriptor)
    requires Published(h, s, t, req, d) && FiniteCall(Publish(req))
    ensures Storable(d) && t.artifacts == s.artifacts[d.id := d]
  {
    hide Link, Valid, Stored, ToI64, Encodable, FinitePlacement;
  }

  lemma ReturnKeepsStorable(h: Bytes -> Digest, s: State, c: Call)
    requires WellFormed(s) && AllStorable(s.artifacts) && !c.Register? && FiniteCall(c) && Do(h, s, c).0.Returned?
    ensures AllStorable(Do(h, s, c).1.artifacts)
  {
    hide WellFormed, Do, AllStorable, Storable, Relabelled, Published, RetiredOne, FiniteCall;
    var t := Do(h, s, c).1;
    Effects(h, s, c);
    if Relabelled(s, t) {
      RelabelledSame(s, t);
      SameAllStorable(s.artifacts, t.artifacts);
    } else if c.Publish? {
      var d :| Published(h, s, t, c.request, d);
      PublishedStorable(h, s, t, c.request, d);
      OneMoreStorable(s.artifacts, d);
    } else {
      RetiredSame(s, t, c.id);
      SameAllStorable(s.artifacts, t.artifacts);
    }
  }

  lemma {:induction false} RunKeepsStorable(h: Bytes -> Digest, calls: seq<Call>)
    requires AllReturn(h, calls) && NoRegister(calls) && AllFinite(calls)
    ensures AllStorable(After(h, calls).artifacts)
  {
    if calls != [] {
      hide Do, AllStorable, WellFormed;
      RunKeepsStorable(h, calls[..|calls| - 1]);
      ReturnKeepsStorable(h, After(h, calls[..|calls| - 1]), calls[|calls| - 1]);
    } else {
      assert AllStorable(NEW_CATALOG.artifacts);
    }
  }

  // ---- counts are small -----------------------------------------------------------------

  lemma {:induction false} FewDigests(m: map<Id, Descriptor>, ids: set<Id>)
    requires ids <= m.Keys
    ensures |set id | id in ids :: m[id].contentDigest| <= |ids|
  {
    var digests := set id | id in ids :: m[id].contentDigest;
    if ids == {} {
      assert digests == {};
    } else {
      var x := Pick(ids);
      FewDigests(m, ids - {x});
      var fewer := set id | id in ids - {x} :: m[id].contentDigest;
      assert digests == fewer + {m[x].contentDigest};
    }
  }

  lemma StoreIsSmall(s: State)
    requires Counted(s)
    ensures |s.store| <= |s.artifacts|
  {
    var digests := set id | id in s.artifacts.Keys :: s.artifacts[id].contentDigest;
    forall cd | cd in s.store ensures cd in digests {
      assert CountedAt(s.artifacts, s.store, cd);
      var x := Pick(Holders(s.artifacts, cd));
    }
    FewDigests(s.artifacts, s.artifacts.Keys);
    SubsetSize(s.store.Keys, digests);
  }

  lemma CountsAreSmall(s: State)
    requires Linked(s) && Counted(s)
    ensures |s.artifacts| <= MAX_NODES && |s.store| <= MAX_NODES && SmallCounts(s.store)
  {
    hide Counted;
    SubsetSize(s.artifacts.Keys, s.graph.nodes);
    StoreIsSmall(s);
    forall cd | cd in s.store ensures s.store[cd].references < 0x8000_0000_0000_0000 {
      FewHolders(s, cd);
      CountedHere(s, cd);
    }
  }

  lemma CountedHere(s: State, cd: Digest)
    requires Counted(s) && cd in s.store
    ensures s.store[cd].references == |Holders(s.artifacts, cd)|
  {
    assert CountedAt(s.artifacts, s.store, cd);
  }

  // ---- recovery -------------------------------------------------------------------------

  /** What the image brings back: artifacts, contents with their reference counts, successors,
      authority, next generation, the graph, every index query and the reverse of the
      supersession relation. Causes and quarantine records are not in the image. */
  ghost predicate Recovered(s: State, t: State) {
    && t.artifacts == s.artifacts && t.store == s.store && t.successors == s.successors
    && t.epoch == s.epoch && t.boot == s.boot && t.nextGeneration == s.nextGeneration
    && t.graph.nodes == s.graph.nodes && (forall a :: Direct(t.graph, a) == Direct(s.graph, a))
    && FullyIndexed(t)
    && InverseOf(t.predecessors, t.successors)
    && t.causes == map[] && t.quarantines == map[]
  }

  lemma RestoredAll(target: State, s: State)
    requires WellFormed(s) && Linked(s) && |s.graph.nodes| < MAX_NODES
    ensures WellFormed(Cleared(target))
    ensures var (r, t) := Restore(Cleared(target), SavedDescriptors(s));
      && r.Returned? && t.artifacts == s.artifacts && t.graph.nodes == s.graph.nodes
      && (forall a :: Direct(t.graph, a) == Direct(s.graph, a))
  {
    hide Linked, Restore, Elements;
    var ids := SortedIds(s.artifacts.Keys);
    assert forall i :: 0 <= i < |ids| ==> ids[i] in ids;
    AscendingDistinct(ids);
    ClearedIsPart(target, s);
    RestoreAll(Cleared(target), s, ids);
    var t := Restore(Cleared(target), SavedDescriptors(s)).1;
    SameElements(ids, s.artifacts.Keys);
    PartIsAll(t, s);
    SameGraph(t, s);
  }

  lemma SameElements(ids: seq<Id>, keys: set<Id>)
    requires forall x :: x in ids <==> x in keys
    ensures Elements(ids) == keys
  {
  }

  lemma PartIsAll(t: State, s: State)
    requires PartOf(t, s) && t.artifacts.Keys == s.artifacts.Keys
    ensures t.artifacts == s.artifacts && Linked(t)
  {
    hide Linked, Within;
    assert forall id :: id in t.artifacts ==> t.artifacts[id] == s.artifacts[id];
  }

  lemma FinishIs(t: State, s: State)
    requires t.artifacts == s.artifacts && SmallCounts(s.store) && WellFormed(s)
    ensures var (r, u) := Finish(t, s.epoch, s.boot, s.nextGeneration, SavedContents(s), SavedSuccessors(s));
      && (r.Returned? <==> Total(SignedSizes(s.artifacts)) >= 0)
      && u == t.(epoch := s.epoch, boot := s.boot, nextGeneration := s.nextGeneration, store := s.store,
                 successors := s.successors, predecessors := Predecessors(s.successors),
                 indexed := s.artifacts.Keys, counters := Recount(s.artifacts, s.store).1)
  {
    hide Recount, Total, SignedSizes, SavedContents, SavedSuccessors, Predecessors;
    MapsBack(s);
    RecountIs(s.artifacts, s.store);
  }

  lemma LoadSaved(target: State, s: State)
    requires WellFormed(target) && WellFormed(s) && Linked(s) && Counted(s) && |s.graph.nodes| < MAX_NODES
    requires AllStorable(s.artifacts) && ContentsFit(s.store) && CountsFit(s)
    ensures Save(s).Returned?
    ensures var (r, t) := Load(target, Save(s).value);
      && (r.Returned? <==> Total(SignedSizes(s.artifacts)) >= 0)
      && (r.Returned? ==> Recovered(s, t) && t.counters == Recount(s.artifacts, s.store).1)
  {
    hide Linked, Counted, AllStorable, ContentsFit, CountsFit, Savable, Restore, Finish, Recount, Total, SignedSizes,
      Predecessors, InverseOf, ImageF, Valid, SavedDescriptors, SavedContents, SavedSuccessors;
    ImageReadsBack(s);
    CountsAreSmall(s);
    RestoredAll(target, s);
    var u := Restore(Cleared(target), SavedDescriptors(s)).1;
    FinishIs(u, s);
    PredecessorsInvert(s.successors);
  }

  lemma StoreFits(h: Bytes -> Digest, store: map<Digest, Content>, contents: set<Bytes>)
    requires Genuine(h, store, contents) && SmallContents(contents)
    ensures ContentsFit(store)
  {
  }

  /** Within the limits of the encoder, and not at the limit of the graph. */
  ghost predicate WithinLimits(s: State, calls: seq<Call>) {
    && AllFinite(calls) && SmallContents(Contents(calls)) && |s.graph.nodes| < MAX_NODES
    && |s.successors| <= MAX_U32 && forall id :: id in s.successors ==> |s.successors[id]| <= MAX_U32
  }

  /** Nothing that can be asked of the indexes, or saved, tells the two catalogs apart; the
      predecessors are the same up to order. */
  ghost predicate SameAnswers(s: State, t: State) {
    && WellFormed(s) && WellFormed(t) && Save(t) == Save(s)
    && (forall k :: Lookup(t, k) == Lookup(s, k))
    && (forall b :: multiset(At(t.predecessors, b)) == multiset(At(s.predecessors, b)))
  }

  /** A run of publications and lifecycle calls that all returned, within the limits of the
      encoder and of the graph, is saved; and loading the image into any catalog returns
      exactly when the declared sizes, taken as signed 64-bit numbers, do not add up to less
      than zero. Everything the image holds is then restored, and saving again gives the same
      image. */
  lemma RecoveryIsExact(h: Bytes -> Digest, calls: seq<Call>, target: State)
    requires AllReturn(h, calls) && NoRegister(calls) && WithinLimits(After(h, calls), calls) && WellFormed(target)
    ensures var s := After(h, calls);
      && Save(s).Returned?
      && var (r, t) := Load(target, Save(s).value);
         && (r.Returned? <==> Total(SignedSizes(s.artifacts)) >= 0)
         && (r.Returned? ==> Recovered(s, t) && SameAnswers(s, t))
  {
    hide After, AllReturn, Linked, Counted, AllStorable, ContentsFit, Savable, Load, Recount, Total, SignedSizes,
      InverseOf, ImageF, Valid, Genuine, SmallContents, Contents, WellFormed, Save, Recovered, SameAnswers;
    var s := After(h, calls);
    RunKeepsLinked(h, calls);
    RunKeepsCounted(h, calls);
    RunKeepsStorable(h, calls);
    RunKeepsGenuine(h, calls, Contents(calls));
    StoreFits(h, s.store, Contents(calls));
    CountsAreSmall(s);
    LoadSaved(target, s);
    if Load(target, Save(s).value).0.Returned? {
      RunKeepsIndexed(h, calls);
      RunKeepsInverse(h, calls);
      RecoveredAnswers(s, Load(target, Save(s).value).1);
    }
  }

  lemma RecoveredAnswers(s: State, t: State)
    requires WellFormed(s) && WellFormed(t) && FullyIndexed(s) && InverseOf(s.predecessors, s.successors)
    requires Recovered(s, t)
    ensures SameAnswers(s, t)
  {
    hide WellFormed, InverseOf, ImageF, Save, Lookup;
    SavedAgain(s, t);
    forall k ensures Lookup(t, k) == Lookup(s, k) { SameLookups(s, t, k); }
    forall b ensures multiset(At(t.predecessors, b)) == multiset(At(s.predecessors, b)) {
      InverseUnique(t.predecessors, s.predecessors, s.successors, b);
    }
  }

  /** `bad` is `image` cut short, lengthened, or changed within four consecutive bytes of the
      payload or in the checksum. */
  ghost predicate Damaged(image: Bytes, bad: Bytes) {
    || (|bad| < |image| && bad == image[..|bad|])
    || (|bad| > |image| && bad[..|image|] == image)
    || (|bad| == |image| && bad != image && |image| >= 4
        && (bad[..|image| - 4] == image[..|image| - 4] || exists i, k :: ChangedWithin(image, bad, i, k)))
  }

  predicate ChangedWithin(image: Bytes, bad: Bytes, i: nat, k: nat) {
    && |bad| == |image| && k <= 4 && i + k + 4 <= |image|
    && bad[..i] == image[..i] && bad[i + k..] == image[i + k..]
  }

  lemma DamageRejected(image: Bytes, bad: Bytes)
    requires Decode(ImageF(), image).Returned? && Damaged(image, bad)
    ensures Decode(ImageF(), bad).Threw?
  {
    hide ImageF;
    ImageLaw();
    if |bad| < |image| {
      TruncationRejected(ImageF(), image, |bad|);
    } else if |bad| > |image| {
      assert bad == image + bad[|image|..];
      FramesArePrefixFree(ImageF(), image, bad[|image|..]);
    } else if bad[..|image| - 4] == image[..|image| - 4] {
      TrailerChangeRejected(image, bad);
    } else {
      var i, k :| ChangedWithin(image, bad, i, k);
      BurstRejected(image, bad, i, k);
    }
  }

  /** A damaged copy of the image of such a run is refused by every catalog, and changes nothing
      there. */
  lemma DamagedImageIgnored(h: Bytes -> Digest, calls: seq<Call>, target: State, bad: Bytes)
    requires AllReturn(h, calls) && NoRegister(calls) && WithinLimits(After(h, calls), calls) && WellFormed(target)
    requires Save(After(h, calls)).Returned? && Damaged(Save(After(h, calls)).value, bad)
    ensures Load(target, bad).0.Threw? && Load(target, bad).1 == target
  {
    hide After, AllReturn, Linked, Counted, AllStorable, ContentsFit, Savable, Recount, Total, SignedSizes, Restore, Finish,
      ImageF, Valid, Genuine, SmallContents, Contents, WellFormed, Damaged, ImageOf;
    var s := After(h, calls);
    RunKeepsLinked(h, calls);
    RunKeepsCounted(h, calls);
    RunKeepsStorable(h, calls);
    RunKeepsGenuine(h, calls, Contents(calls));
    StoreFits(h, s.store, Contents(calls));
    CountsAreSmall(s);
    ImageReadsBack(s);
    DamageRejected(Save(s).value, bad);
  }

  /** In particular, the image of a catalog whose declared sizes are below 2^63 always loads. */
  lemma OrdinarySizesLoad(m: map<Id, Descriptor>)
    requires forall id :: id in m ==> m[id].sizeBytes < 0x8000_0000_0000_0000
    ensures Total(SignedSizes(m)) >= 0
  {
    TotalNonNegative(SignedSizes(m));
  }

  /** Loading recomputes the counters: the physical ones and the active references come back in
      any case, the logical ones exactly when nothing is retired. */
  lemma CountersRecomputed(h: Bytes -> Digest, calls: seq<Call>, target: State)
    requires AllReturn(h, calls) && NoRegister(calls) && WithinLimits(After(h, calls), calls) && WellFormed(target)
    requires AllSized(calls) && CollisionFree(h, Contents(calls))
    requires Total(SignedSizes(After(h, calls).artifacts)) >= 0 && Save(After(h, calls)).Returned?
    ensures var s := After(h, calls); var c := s.counters; var e := Load(target, Save(s).value).1.counters;
      && e.physicalBacking == c.physicalBacking && e.physicalBytes == c.physicalBytes
      && e.activeReferences == c.activeReferences
      && ((e.logicalArtifacts == c.logicalArtifacts && e.logicalBytes == c.logicalBytes)
          <==> forall id :: id in s.artifacts ==> s.artifacts[id].lifecycle != RETIRED)
  {
    hide After, AllReturn, Linked, Counted, AllStorable, ContentsFit, Savable, Load, Recount, Total, SignedSizes,
      InverseOf, ImageF, Valid, Genuine, SmallContents, Contents, WellFormed, Save, Recovered, CollisionFree, AllSized,
      SizesMatch, Sizes, Lengths, Savings, Counts;
    var s := After(h, calls);
    RunKeepsLinked(h, calls);
    RunKeepsCounted(h, calls);
    RunKeepsStorable(h, calls);
    RunKeepsGenuine(h, calls, Contents(calls));
    StoreFits(h, s.store, Contents(calls));
    CountsAreSmall(s);
    LoadSaved(target, s);
    RunKeepsBalanced(h, calls, Contents(calls));
    RecountIs(s.artifacts, s.store);
    BackingIsLengths(s.store);
    RetiredMakeTheDifference(s);
  }

  lemma BackingIsLengths(store: map<Digest, Content>)
    ensures |Lengths(store)| == |store|
  {
    assert Lengths(store).Keys == store.Keys;
  }

  lemma RetiredMakeTheDifference(s: State)
    requires Counted(s) && SizesMatch(s.artifacts, s.store)
    ensures |Sizes(s.artifacts)| == |s.artifacts| <==> forall id :: id in s.artifacts ==> s.artifacts[id].lifecycle != RETIRED
    ensures (forall id :: id in s.artifacts ==> s.artifacts[id].lifecycle != RETIRED) ==>
              SignedSizes(s.artifacts) == Sizes(s.artifacts)
  {
    hide Counted, SizesMatch;
    var held := Sizes(s.artifacts).Keys;
    assert held <= s.artifacts.Keys;
    if forall id :: id in s.artifacts ==> s.artifacts[id].lifecycle != RETIRED {
      assert held == s.artifacts.Keys;
      forall id | id in s.artifacts ensures ToI64(s.artifacts[id].sizeBytes) == s.artifacts[id].sizeBytes {
        AllHeld(s, id);
        SizeAt(s, id);
      }
    } else {
      var id :| id in s.artifacts && s.artifacts[id].lifecycle == RETIRED;
      SubsetSize(held, s.artifacts.Keys - {id});
    }
  }

  lemma SizeAt(s: State, id: Id)
    requires SizesMatch(s.artifacts, s.store) && id in s.artifacts && s.artifacts[id].lifecycle != RETIRED
    requires s.artifacts[id].contentDigest in s.store
    ensures s.artifacts[id].sizeBytes < 0x8000_0000_0000_0000
  {
  }

  lemma SavedAgain(s: State, t: State)
    requires Recovered(s, t)
    ensures Save(t) == Save(s)
  {
    hide ImageF, InverseOf, Savable;
    assert ImageOf(t) == ImageOf(s);
    SavableSame(s, t);
  }

  lemma SavableSame(s: State, t: State)
    requires t.artifacts == s.artifacts && t.store == s.store
    ensures Savable(t) <==> Savable(s)
  {
  }

  lemma SameLookups(s: State, t: State, k: Key)
    requires WellFormed(s) && WellFormed(t) && FullyIndexed(s) && FullyIndexed(t) && t.artifacts == s.artifacts
    ensures Lookup(t, k) == Lookup(s, k)
  {
    assert Hits(t, k) == Hits(s, k);
  }
}
