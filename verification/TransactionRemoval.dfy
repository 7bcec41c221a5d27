/** An aborted transaction leaves the catalog as if it had never started. */
module TransactionRemoval {
  import opened Types
  import opened Collections
  import opened Accounting
  import opened GraphModel
  import opened DependencyDigests
  import opened Derivation
  import opened CatalogModel
  import opened CatalogEffects
  import opened CatalogRuns
  import opened References
  import opened Recovery
  import opened TransactionModel
  import opened TransactionRuns

  // ---- the catalog with and without one transaction -------------------------------------

  /** The same artifact up to the digest of its dependency closure. */
  ghost predicate Alike(d: Descriptor, e: Descriptor) {
    d.(dependencyDigest := 0) == e.(dependencyDigest := 0)
  }

  /** `m` holds the artifacts of `n` and, if the transaction is open, the one it reserved. When
      `exact`, they are the same; otherwise their closure digests may differ. */
  ghost predicate ArtifactsMatch(m: map<Id, Descriptor>, n: map<Id, Descriptor>, tx: Option<Tx>, exact: bool) {
    && m.Keys == n.Keys + (if tx.Some? then {tx.value.id} else {})
    && (tx.Some? ==> tx.value.id !in n)
    && forall id :: id in n ==> Alike(m[id], n[id]) && (exact ==> m[id] == n[id])
  }

  /** The store of the one is that of the other, plus the transaction's reference. */
  function WithTx(h: Bytes -> Digest, store: map<Digest, Content>, tx: Option<Tx>): map<Digest, Content> {
    if tx.Some? && tx.value.produced.Some? then Stored(store, h(tx.value.produced.value), tx.value.produced.value) else store
  }

  function WithReservation(c: Counters, tx: Option<Tx>): Counters {
    if tx.None? then c
    else c.(buildReservations := c.buildReservations + 1, temporaryBytes := c.temporaryBytes + tx.value.bytes)
  }

  ghost predicate GraphsMatch(g: Graph, k: Graph, exact: bool) {
    Within(k, g) && |g.nodes| <= MAX_NODES && (exact ==> g == k)
  }

  /** `s` is `t` with transaction `tx` open on it. */
  ghost predicate Shadows(h: Bytes -> Digest, s: State, t: State, tx: Option<Tx>, exact: bool) {
    && s == t.(artifacts := s.artifacts, graph := s.graph, nextGeneration := s.nextGeneration, store := s.store,
               counters := s.counters)
    && ArtifactsMatch(s.artifacts, t.artifacts, tx, exact)
    && GraphsMatch(s.graph, t.graph, exact)
    && s.store == WithTx(h, t.store, tx)
    && s.counters == WithReservation(t.counters, tx)
    && (tx.Some? && tx.value.produced.Some? ==>
          tx.value.id in s.artifacts && s.artifacts[tx.value.id].contentDigest == h(tx.value.produced.value))
  }

  // ---- stores ---------------------------------------------------------------------------

  /** Room for `n` more references to every content. */
  ghost predicate Headroom(store: map<Digest, Content>, n: nat) {
    n < U64_MAX && forall cd :: cd in store ==> 1 <= store[cd].references && store[cd].references + n <= U64_MAX
  }

  lemma StoredRoom(store: map<Digest, Content>, cd: Digest, content: Bytes, n: nat)
    requires n > 0 && Headroom(store, n)
    ensures Headroom(Stored(store, cd, content), n - 1)
  {
  }

  lemma ReleasedRoom(store: map<Digest, Content>, cd: Digest, n: nat)
    requires Headroom(store, n)
    ensures Headroom(Released(store, cd), n)
  {
  }

  lemma LessRoom(store: map<Digest, Content>, n: nat)
    requires n > 0 && Headroom(store, n)
    ensures Headroom(store, n - 1)
  {
  }

  /** Giving up a reference undoes taking it. */
  lemma ReleaseStored(store: map<Digest, Content>, cd: Digest, content: Bytes)
    requires Headroom(store, 1)
    ensures Released(Stored(store, cd, content), cd) == store
  {
  }

  /** References can be taken in either order. */
  lemma StoredCommutes(h: Bytes -> Digest, store: map<Digest, Content>, x: Bytes, y: Bytes)
    requires h(x) == h(y) ==> x == y
    ensures Stored(Stored(store, h(x), x), h(y), y) == Stored(Stored(store, h(y), y), h(x), x)
  {
    if h(x) != h(y) {
      assert Stored(Stored(store, h(x), x), h(y), y) == Stored(Stored(store, h(y), y), h(x), x);
    }
  }

  // ---- graphs ---------------------------------------------------------------------------

  /** An edge accepted by a graph is accepted by any part of it. */
  lemma EdgeMonotone(small: Graph, big: Graph, id: Id, dep: DependencyRef)
    requires Valid(small) && Valid(big) && Within(small, big) && id in small.nodes && dep.artifact in small.nodes
    requires AddEdge(big, id, dep).0.Returned?
    ensures AddEdge(small, id, dep).0.Returned? && Within(AddEdge(small, id, dep).1, AddEdge(big, id, dep).1)
  {
    if Reaches(small, dep.artifact, id) { WithinReaches(small, big, dep.artifact, id); }
    WithEdgeEdges(small, id, dep);
    WithEdgeEdges(big, id, dep);
  }

  lemma NodeMonotone(small: Graph, big: Graph, n: Id)
    requires Valid(small) && Valid(big) && Within(small, big) && |big.nodes| <= MAX_NODES
    requires n in big.nodes || AddNode(big, n).0.Returned?
    ensures var k := if n in small.nodes then small else AddNode(small, n).1;
      var g := if n in big.nodes then big else AddNode(big, n).1;
      && (n in small.nodes || AddNode(small, n).0.Returned?)
      && Within(k, g) && n in k.nodes && |g.nodes| <= MAX_NODES && (forall x :: x in small.nodes ==> x in k.nodes)
  {
    hide Valid;
    if n !in small.nodes {
      if n in big.nodes {
        SubsetSize(small.nodes, big.nodes - {n});
      } else {
        SubsetSize(small.nodes, big.nodes);
        NodeEffect(big, n);
        SameDirectSameEdges(big, AddNode(big, n).1);
      }
      NodeEffect(small, n);
      SameDirectSameEdges(small, AddNode(small, n).1);
    }
  }

  lemma SameDirectSameEdges(g: Graph, k: Graph)
    requires forall a :: Direct(k, a) == Direct(g, a)
    ensures forall a, b :: Edge(g, a, b) <==> Edge(k, a, b)
  {
  }

  lemma {:induction false} LinkAllMonotone(small: Graph, big: Graph, id: Id, deps: seq<DependencyRef>)
    requires Valid(small) && Valid(big) && Within(small, big) && |big.nodes| <= MAX_NODES && id in small.nodes
    requires LinkAll(big, id, deps).0.Returned?
    ensures LinkAll(small, id, deps).0.Returned?
    ensures Within(LinkAll(small, id, deps).1, LinkAll(big, id, deps).1) && |LinkAll(big, id, deps).1.nodes| <= MAX_NODES
    decreases |deps|
  {
    if deps != [] {
      hide Valid, Within, AddNode, AddEdge;
      var dep := deps[0];
      AddNodeKeepsValid(small, dep.artifact);
      AddNodeKeepsValid(big, dep.artifact);
      NodeMonotone(small, big, dep.artifact);
      var k := if dep.artifact in small.nodes then small else AddNode(small, dep.artifact).1;
      var g := if dep.artifact in big.nodes then big else AddNode(big, dep.artifact).1;
      EdgeMonotone(k, g, id, dep);
      AddEdgeKeepsValid(k, id, dep);
      AddEdgeKeepsValid(g, id, dep);
      EdgeEffect(k, id, dep);
      EdgeEffect(g, id, dep);
      LinkAllMonotone(AddEdge(k, id, dep).1, AddEdge(g, id, dep).1, id, deps[1..]);
    }
  }

  lemma LinkLateMonotone(small: Graph, big: Graph, id: Id, deps: seq<DependencyRef>)
    requires Valid(small) && Valid(big) && Within(small, big) && |big.nodes| <= MAX_NODES
    requires LinkLate(big, id, deps).0.Returned?
    ensures LinkLate(small, id, deps).0.Returned?
    ensures Within(LinkLate(small, id, deps).1, LinkLate(big, id, deps).1) && |LinkLate(big, id, deps).1.nodes| <= MAX_NODES
  {
    hide Valid, Within, AddNode, LinkAll;
    AddNodeKeepsValid(small, id);
    AddNodeKeepsValid(big, id);
    NodeMonotone(small, big, id);
    LinkAllMonotone(if id in small.nodes then small else AddNode(small, id).1,
                    if id in big.nodes then big else AddNode(big, id).1, id, deps);
  }

  /** Linking only adds. */
  lemma LinkLateGrows(g: Graph, id: Id, deps: seq<DependencyRef>)
    requires Valid(g) && |g.nodes| <= MAX_NODES && LinkLate(g, id, deps).0.Returned?
    ensures Within(g, LinkLate(g, id, deps).1) && |LinkLate(g, id, deps).1.nodes| <= MAX_NODES
  {
    hide Valid, AddNode, LinkAll, Direct, Elements, Targets;
    AddNodeKeepsValid(g, id);
    if id !in g.nodes { NodeEffect(g, id); }
    var k := if id in g.nodes then g else AddNode(g, id).1;
    LinkAllEffect(k, id, deps);
    GrownWithin(k, LinkAll(k, id, deps).1, id, deps);
    SameDirectSameEdges(g, k);
  }

  lemma GrownWithin(g: Graph, k: Graph, id: Id, deps: seq<DependencyRef>)
    requires Grown(g, k, id, deps)
    ensures Within(g, k)
  {
    forall a, b | Edge(g, a, b) ensures Edge(k, a, b) {
      if a == id { assert Targets(Direct(k, id)) == Targets(Direct(g, id)) + Targets(deps); }
    }
  }

  // ---- one step of another transaction --------------------------------------------------

  lemma AlikeUpdate(d: Descriptor, e: Descriptor, l: LifecycleState, cd: Digest, v: ValidationState)
    requires Alike(d, e)
    ensures Alike(d.(lifecycle := l), e.(lifecycle := l))
    ensures Alike(d.(contentDigest := cd, lifecycle := l), e.(contentDigest := cd, lifecycle := l))
    ensures Alike(d.(validation := v, lifecycle := l), e.(validation := v, lifecycle := l))
    ensures d.contentDigest == e.contentDigest && d.sizeBytes == e.sizeBytes && d.dependencies == e.dependencies
    ensures d.generation == e.generation
  {
  }

  lemma AlikeDigest(d: Descriptor, e: Descriptor, x: Digest, y: Digest)
    requires Alike(d, e)
    ensures Alike(d.(dependencyDigest := x), e.(dependencyDigest := y))
  {
  }

  lemma AlikeSelf(d: Descriptor)
    ensures Alike(d, d)
  {
  }

  lemma MatchReplace(m: map<Id, Descriptor>, n: map<Id, Descriptor>, tx: Option<Tx>, exact: bool,
                     id: Id, d: Descriptor, e: Descriptor)
    requires ArtifactsMatch(m, n, tx, exact) && Alike(d, e) && (exact ==> d == e)
    requires tx.Some? ==> id != tx.value.id
    ensures ArtifactsMatch(m[id := d], n[id := e], tx, exact)
  {
    hide Alike;
  }

  lemma MatchRemove(m: map<Id, Descriptor>, n: map<Id, Descriptor>, tx: Option<Tx>, exact: bool, id: Id)
    requires ArtifactsMatch(m, n, tx, exact) && (tx.Some? ==> id != tx.value.id)
    ensures ArtifactsMatch(m - {id}, n - {id}, tx, exact)
  {
    hide Alike;
  }

  lemma MatchAt(m: map<Id, Descriptor>, n: map<Id, Descriptor>, tx: Option<Tx>, exact: bool, id: Id)
    requires ArtifactsMatch(m, n, tx, exact) && id in n
    ensures id in m && Alike(m[id], n[id]) && (exact ==> m[id] == n[id]) && (tx.Some? ==> id != tx.value.id)
  {
  }

  lemma ReserveShadow(h: Bytes -> Digest, s: State, t: State, tx: Option<Tx>, exact: bool, req: PublishRequest)
    requires Shadows(h, s, t, tx, exact) && Reserve(h, s, req).0.Returned? && t.counters.temporaryBytes >= 0
    ensures Reserve(h, t, req).0 == Reserve(h, s, req).0
    ensures Shadows(h, Reserve(h, s, req).1, Reserve(h, t, req).1, tx, exact)
  {
    hide DeriveId, ArtifactsMatch, GraphsMatch, WithTx;
    var d := req.descriptor;
    var id := if d.id == 0 then DeriveId(h, d).value else d.id;
    MatchKeys(s.artifacts, t.artifacts, tx, exact, id);
    AlikeSelf(d.(id := id, lifecycle := BUILDING));
    MatchReplace(s.artifacts, t.artifacts, tx, exact, id, d.(id := id, lifecycle := BUILDING), d.(id := id, lifecycle := BUILDING));
  }

  lemma MatchKeys(m: map<Id, Descriptor>, n: map<Id, Descriptor>, tx: Option<Tx>, exact: bool, id: Id)
    requires ArtifactsMatch(m, n, tx, exact) && id !in m
    ensures id !in n && (tx.Some? ==> id != tx.value.id)
  {
  }

  lemma ProduceShadow(h: Bytes -> Digest, s: State, t: State, tx: Option<Tx>, exact: bool, id: Id, content: Bytes, a: Authority)
    requires Shadows(h, s, t, tx, exact) && id in t.artifacts && Produce(h, s, id, content, a).0.Returned?
    requires tx.Some? && tx.value.produced.Some? && h(tx.value.produced.value) == h(content) ==> tx.value.produced.value == content
    ensures Produce(h, t, id, content, a).0.Returned?
    ensures Shadows(h, Produce(h, s, id, content, a).1, Produce(h, t, id, content, a).1, tx, exact)
  {
    hide ArtifactsMatch, GraphsMatch, Stored, Alike;
    MatchAt(s.artifacts, t.artifacts, tx, exact, id);
    var d, e := s.artifacts[id], t.artifacts[id];
    AlikeUpdate(d, e, VALIDATING, h(content), d.validation);
    MatchReplace(s.artifacts, t.artifacts, tx, exact, id, d.(contentDigest := h(content), lifecycle := VALIDATING),
                 e.(contentDigest := h(content), lifecycle := VALIDATING));
    if tx.Some? && tx.value.produced.Some? { StoredCommutes(h, t.store, tx.value.produced.value, content); }
  }

  lemma ValidateShadow(h: Bytes -> Digest, s: State, t: State, tx: Option<Tx>, exact: bool, id: Id, report: Report, a: Authority)
    requires Shadows(h, s, t, tx, exact) && id in t.artifacts && ValidatePublish(s, id, report, a).0.Returned?
    ensures ValidatePublish(t, id, report, a).0.Returned?
    ensures Shadows(h, ValidatePublish(s, id, report, a).1, ValidatePublish(t, id, report, a).1, tx, exact)
  {
    hide ArtifactsMatch, GraphsMatch, WithTx, Alike;
    MatchAt(s.artifacts, t.artifacts, tx, exact, id);
    var d, e := s.artifacts[id], t.artifacts[id];
    var l := if report.AllOk() then VALID else FAILED;
    AlikeUpdate(d, e, l, d.contentDigest, report.state);
    MatchReplace(s.artifacts, t.artifacts, tx, exact, id, d.(validation := report.state, lifecycle := l),
                 e.(validation := report.state, lifecycle := l));
  }

  lemma VerifyShadow(h: Bytes -> Digest, s: State, t: State, tx: Option<Tx>, exact: bool, id: Id, a: Authority)
    requires Valid(s.graph) && Valid(t.graph)
    requires Shadows(h, s, t, tx, exact) && id in t.artifacts && VerifyDependencies(h, s, id, a).0.Returned?
    ensures VerifyDependencies(h, t, id, a).0.Returned?
    ensures Shadows(h, VerifyDependencies(h, s, id, a).1, VerifyDependencies(h, t, id, a).1, tx, exact)
  {
    hide Valid, Within, ArtifactsMatch, WithTx, LinkLate, DigestInput, Alike;
    MatchAt(s.artifacts, t.artifacts, tx, exact, id);
    var d, e := s.artifacts[id], t.artifacts[id];
    AlikeUpdate(d, e, d.lifecycle, d.contentDigest, d.validation);
    LinkLateMonotone(t.graph, s.graph, id, d.dependencies);
    var x, y := h(DigestInput(LinkLate(s.graph, id, d.dependencies).1, id)),
                h(DigestInput(LinkLate(t.graph, id, d.dependencies).1, id));
    AlikeDigest(d, e, x, y);
    MatchReplace(s.artifacts, t.artifacts, tx, exact, id, d.(dependencyDigest := x), e.(dependencyDigest := y));
  }

  lemma ReleaseShadow(c: Counters, tx: Option<Tx>, bytes: nat)
    requires c.buildReservations > 0 && c.temporaryBytes >= bytes
    ensures Release(c, bytes).0.Returned?
    ensures Release(WithReservation(c, tx), bytes) == (Release(c, bytes).0, WithReservation(Release(c, bytes).1, tx))
  {
  }

  lemma ChargeShadow(c: Counters, tx: Option<Tx>, size: int)
    ensures CommitCharge(WithReservation(c, tx), size).0 == CommitCharge(c, size).0
    ensures CommitCharge(WithReservation(c, tx), size).1 == WithReservation(CommitCharge(c, size).1, tx)
  {
  }

  lemma CommitShadow(h: Bytes -> Digest, s: State, t: State, tx: Option<Tx>, exact: bool, id: Id, bytes: nat, a: Authority)
    requires Shadows(h, s, t, tx, exact) && id in t.artifacts && Commit(s, id, bytes, a).0.Returned?
    requires t.counters.buildReservations > 0 && t.counters.temporaryBytes >= bytes
    ensures Commit(t, id, bytes, a).0.Returned?
    ensures Shadows(h, Commit(s, id, bytes, a).1, Commit(t, id, bytes, a).1, tx, exact)
  {
    hide ArtifactsMatch, GraphsMatch, WithTx, WithReservation, Release, CommitCharge, Alike, ToI64;
    MatchAt(s.artifacts, t.artifacts, tx, exact, id);
    var d, e := s.artifacts[id], t.artifacts[id];
    AlikeUpdate(d, e, PUBLISHED, d.contentDigest, d.validation);
    MatchReplace(s.artifacts, t.artifacts, tx, exact, id, d.(lifecycle := PUBLISHED), e.(lifecycle := PUBLISHED));
    ReleaseShadow(t.counters, tx, bytes);
    ChargeShadow(Release(t.counters, bytes).1, tx, CommittedSize(e.(lifecycle := PUBLISHED), bytes));
  }

  lemma AbortShadow(h: Bytes -> Digest, s: State, t: State, tx: Option<Tx>, exact: bool, id: Id, bytes: nat)
    requires Shadows(h, s, t, tx, exact) && id in t.artifacts && Abort(s, id, bytes).0.Returned?
    requires t.counters.buildReservations > 0 && t.counters.temporaryBytes >= bytes && Headroom(t.store, 1)
    requires var cd := t.artifacts[id].contentDigest; cd in t.store || cd !in s.store
    requires tx.Some? && tx.value.produced.Some? && h(tx.value.produced.value) in t.store ==>
               t.store[h(tx.value.produced.value)].bytes == tx.value.produced.value
    ensures Abort(t, id, bytes).0.Returned?
    ensures Shadows(h, Abort(s, id, bytes).1, Abort(t, id, bytes).1, tx, exact)
  {
    hide ArtifactsMatch, GraphsMatch, WithReservation, Release, Alike, Stored, Headroom;
    MatchAt(s.artifacts, t.artifacts, tx, exact, id);
    var d, e := s.artifacts[id], t.artifacts[id];
    AlikeUpdate(d, e, d.lifecycle, d.contentDigest, d.validation);
    MatchRemove(s.artifacts, t.artifacts, tx, exact, id);
    ReleaseShadow(t.counters, tx, bytes);
    AbortStores(h, s.store, t.store, tx, d.contentDigest);
  }

  lemma AbortStores(h: Bytes -> Digest, big: map<Digest, Content>, small: map<Digest, Content>, tx: Option<Tx>, cd: Digest)
    requires big == WithTx(h, small, tx) && Headroom(small, 1) && (cd in small || cd !in big)
    requires tx.Some? && tx.value.produced.Some? && h(tx.value.produced.value) in small ==>
               small[h(tx.value.produced.value)].bytes == tx.value.produced.value
    ensures Released(big, cd) == WithTx(h, Released(small, cd), tx)
  {
    if tx.Some? && tx.value.produced.Some? && cd in small {
      var content := tx.value.produced.value;
    }
  }

  // ---- one step of the transaction itself -----------------------------------------------

  lemma BeginShadow(h: Bytes -> Digest, s: State, t: State, exact: bool, req: PublishRequest)
    requires Shadows(h, s, t, None, exact) && Reserve(h, s, req).0.Returned?
    ensures Shadows(h, Reserve(h, s, req).1, t, Some(Tx(Reserve(h, s, req).0.value, |req.content|, None)), exact)
  {
    hide Reserve, GraphsMatch, Alike;
    ReserveIs(h, s, req);
  }

  /** A reservation enters one artifact and counts itself. */
  lemma ReserveIs(h: Bytes -> Digest, s: State, req: PublishRequest)
    requires Reserve(h, s, req).0.Returned?
    ensures var (r, t) := Reserve(h, s, req);
      && r.value !in s.artifacts && r.value in t.artifacts
      && t == s.(nextGeneration := t.nextGeneration, artifacts := s.artifacts[r.value := t.artifacts[r.value]],
                 counters := s.counters.(buildReservations := s.counters.buildReservations + 1,
                                         temporaryBytes := s.counters.temporaryBytes + |req.content|))
  {
    hide DeriveId;
  }

  /** The artifact of the transaction itself is on one side only. */
  lemma MatchOwn(m: map<Id, Descriptor>, n: map<Id, Descriptor>, tx: Tx, txNow: Tx, exact: bool, d: Descriptor)
    requires ArtifactsMatch(m, n, Some(tx), exact) && txNow.id == tx.id
    ensures ArtifactsMatch(m[tx.id := d], n, Some(txNow), exact)
  {
    hide Alike;
  }

  lemma FillShadow(h: Bytes -> Digest, s: State, t: State, tx: Tx, exact: bool, content: Bytes, a: Authority)
    requires Shadows(h, s, t, Some(tx), exact) && tx.produced.None? && |content| == tx.bytes
    requires Produce(h, s, tx.id, content, a).0.Returned?
    ensures Shadows(h, Produce(h, s, tx.id, content, a).1, t, Some(tx.(bytes := |content|, produced := Some(content))), exact)
  {
    hide ArtifactsMatch, GraphsMatch, Stored;
    var next := tx.(bytes := |content|, produced := Some(content));
    MatchOwn(s.artifacts, t.artifacts, tx, next, exact,
             s.artifacts[tx.id].(contentDigest := h(content), lifecycle := VALIDATING));
  }

  lemma CheckShadow(h: Bytes -> Digest, s: State, t: State, tx: Tx, exact: bool, report: Report, a: Authority)
    requires Shadows(h, s, t, Some(tx), exact) && ValidatePublish(s, tx.id, report, a).0.Returned?
    ensures Shadows(h, ValidatePublish(s, tx.id, report, a).1, t, Some(tx), exact)
  {
    hide ArtifactsMatch, GraphsMatch, WithTx;
    MatchOwn(s.artifacts, t.artifacts, tx, tx, exact,
             s.artifacts[tx.id].(validation := report.state, lifecycle := if report.AllOk() then VALID else FAILED));
  }

  lemma OwnVerifyShadow(h: Bytes -> Digest, s: State, t: State, tx: Tx, a: Authority)
    requires Valid(s.graph) && Shadows(h, s, t, Some(tx), false) && VerifyDependencies(h, s, tx.id, a).0.Returned?
    ensures Shadows(h, VerifyDependencies(h, s, tx.id, a).1, t, Some(tx), false)
  {
    hide Valid, ArtifactsMatch, WithTx, LinkLate, DigestInput, Within;
    var deps := s.artifacts[tx.id].dependencies;
    LinkLateGrows(s.graph, tx.id, deps);
    WithinTwice(t.graph, s.graph, LinkLate(s.graph, tx.id, deps).1);
    MatchOwn(s.artifacts, t.artifacts, tx, tx, false,
             s.artifacts[tx.id].(dependencyDigest := h(DigestInput(LinkLate(s.graph, tx.id, deps).1, tx.id))));
  }

  lemma WithinTwice(a: Graph, b: Graph, c: Graph)
    requires Within(a, b) && Within(b, c)
    ensures Within(a, c)
  {
  }

  lemma CancelShadow(h: Bytes -> Digest, s: State, t: State, tx: Tx, exact: bool)
    requires Shadows(h, s, t, Some(tx), exact) && Headroom(t.store, 1) && Abort(s, tx.id, tx.bytes).0.Returned?
    requires tx.produced.None? ==> s.artifacts[tx.id].contentDigest !in s.store
    ensures Shadows(h, Abort(s, tx.id, tx.bytes).1, t, None, exact)
  {
    hide ArtifactsMatch, GraphsMatch, Stored, Headroom, Released;
    MatchGone(s.artifacts, t.artifacts, tx, exact);
    if tx.produced.Some? {
      ReleaseStored(t.store, h(tx.produced.value), tx.produced.value);
    } else {
      ReleaseAbsent(s.store, s.artifacts[tx.id].contentDigest);
    }
  }

  lemma ReleaseAbsent(store: map<Digest, Content>, cd: Digest)
    requires cd !in store
    ensures Released(store, cd) == store
  {
  }

  lemma MatchGone(m: map<Id, Descriptor>, n: map<Id, Descriptor>, tx: Tx, exact: bool)
    requires ArtifactsMatch(m, n, Some(tx), exact)
    ensures tx.id in m && ArtifactsMatch(m - {tx.id}, n, None, exact)
  {
    hide Alike;
    assert (m - {tx.id}).Keys == n.Keys;
  }

  // ---- what open transactions hold ------------------------------------------------------

  function Producers(h: Bytes -> Digest, open: map<nat, Tx>, cd: Digest): set<nat> {
    set j | j in open && open[j].produced.Some? && h(open[j].produced.value) == cd
  }

  function CountOf(store: map<Digest, Content>, cd: Digest): nat {
    if cd in store then store[cd].references else 0
  }

  /** Every produced content is referenced at least as often as open transactions produced it. */
  ghost predicate HeldAt(h: Bytes -> Digest, store: map<Digest, Content>, open: map<nat, Tx>, cd: Digest) {
    |Producers(h, open, cd)| <= CountOf(store, cd)
  }

  ghost predicate Held(h: Bytes -> Digest, store: map<Digest, Content>, open: map<nat, Tx>) {
    forall cd :: HeldAt(h, store, open, cd)
  }

  ghost predicate OwnsOne(h: Bytes -> Digest, m: map<Id, Descriptor>, tx: Tx) {
    tx.id in m && (tx.produced.Some? ==> m[tx.id].contentDigest == h(tx.produced.value))
  }

  /** Open transactions have an artifact each, no two the same. */
  ghost predicate Owns(h: Bytes -> Digest, m: map<Id, Descriptor>, open: map<nat, Tx>) {
    && (forall j :: j in open ==> OwnsOne(h, m, open[j]))
    && (forall i, j :: i in open && j in open && i != j ==> open[i].id != open[j].id)
  }

  ghost predicate Sound(h: Bytes -> Digest, w: World, base: Counters, contents: set<Bytes>, n: nat) {
    && ValidWorld(w)
    && Owns(h, w.cat.artifacts, w.open) && Held(h, w.cat.store, w.open)
    && Headroom(w.cat.store, n) && Genuine(h, w.cat.store, contents)
    && Accounted(w.cat.counters, base, w.open) && base.buildReservations >= 0 && base.temporaryBytes >= 0
  }

  /** A transaction that produced nothing is only aborted while no one has stored a content
      under the digest its descriptor claims. */
  predicate Clean(w: World, k: nat, e: Event) {
    && Disciplined(w, k, e)
    && (e.Cancel? && w.open[k].produced.None? && w.open[k].id in w.cat.artifacts ==>
          w.cat.artifacts[w.open[k].id].contentDigest !in w.cat.store)
  }

  predicate FillsFrom(e: Event, contents: set<Bytes>) {
    e.Fill? ==> e.content in contents
  }

  // ---- soundness is kept ----------------------------------------------------------------

  lemma OwnsMore(h: Bytes -> Digest, m: map<Id, Descriptor>, open: map<nat, Tx>, k: nat, d: Descriptor, bytes: nat)
    requires Owns(h, m, open) && d.id !in m && k !in open
    ensures Owns(h, m[d.id := d], open[k := Tx(d.id, bytes, None)])
  {
  }

  lemma OwnsChanged(h: Bytes -> Digest, m: map<Id, Descriptor>, open: map<nat, Tx>, k: nat, tx: Tx, d: Descriptor)
    requires Owns(h, m, open) && k in open && tx.id == open[k].id
    requires tx.produced.Some? ==> d.contentDigest == h(tx.produced.value)
    ensures Owns(h, m[tx.id := d], open[k := tx])
  {
    var n, next := m[tx.id := d], open[k := tx];
    forall j | j in next ensures OwnsOne(h, n, next[j]) {
      if j != k { assert OwnsOne(h, m, open[j]) && open[j].id != tx.id; }
    }
  }

  lemma OwnsLess(h: Bytes -> Digest, m: map<Id, Descriptor>, open: map<nat, Tx>, k: nat)
    requires Owns(h, m, open) && k in open
    ensures Owns(h, m - {open[k].id}, open - {k}) && open[k].id in m
  {
    forall j | j in open - {k} ensures OwnsOne(h, m - {open[k].id}, open[j]) {
      assert OwnsOne(h, m, open[j]) && open[j].id != open[k].id;
    }
    assert OwnsOne(h, m, open[k]);
  }

  lemma OwnsCommitted(h: Bytes -> Digest, m: map<Id, Descriptor>, open: map<nat, Tx>, k: nat, d: Descriptor)
    requires Owns(h, m, open) && k in open
    ensures Owns(h, m[open[k].id := d], open - {k})
  {
    forall j | j in open - {k} ensures OwnsOne(h, m[open[k].id := d], open[j]) {
      assert OwnsOne(h, m, open[j]) && open[j].id != open[k].id;
    }
  }

  lemma ProducersUnproduced(h: Bytes -> Digest, open: map<nat, Tx>, k: nat, tx: Tx, cd: Digest)
    requires k !in open && tx.produced.None?
    ensures Producers(h, open[k := tx], cd) == Producers(h, open, cd)
  {
  }

  lemma ProducersLess(h: Bytes -> Digest, open: map<nat, Tx>, k: nat, cd: Digest)
    requires k in open
    ensures Producers(h, open - {k}, cd) == Producers(h, open, cd) - {k}
    ensures k in Producers(h, open, cd) <==> open[k].produced.Some? && h(open[k].produced.value) == cd
  {
  }

  lemma ProducersMore(h: Bytes -> Digest, open: map<nat, Tx>, k: nat, tx: Tx, cd: Digest)
    requires k in open && open[k].produced.None? && tx.produced.Some?
    ensures Producers(h, open[k := tx], cd) == Producers(h, open, cd) + (if h(tx.produced.value) == cd then {k} else {})
    ensures k !in Producers(h, open, cd)
  {
  }

  lemma HeldMore(h: Bytes -> Digest, store: map<Digest, Content>, open: map<nat, Tx>, k: nat, tx: Tx, cd: Digest)
    requires Held(h, store, open) && Headroom(store, 1) && k in open && open[k].produced.None? && tx.produced.Some?
    ensures HeldAt(h, Stored(store, h(tx.produced.value), tx.produced.value), open[k := tx], cd)
  {
    assert HeldAt(h, store, open, cd);
    ProducersMore(h, open, k, tx, cd);
    hide Producers;
  }

  lemma HeldLess(h: Bytes -> Digest, store: map<Digest, Content>, open: map<nat, Tx>, k: nat, cd: Digest)
    requires Held(h, store, open) && Headroom(store, 1) && k in open
    requires open[k].produced.Some?
    ensures HeldAt(h, Released(store, h(open[k].produced.value)), open - {k}, cd)
  {
    assert HeldAt(h, store, open, cd);
    ProducersLess(h, open, k, cd);
    hide Producers;
  }

  lemma HeldDropped(h: Bytes -> Digest, store: map<Digest, Content>, open: map<nat, Tx>, k: nat, cd: Digest)
    requires Held(h, store, open) && k in open
    ensures HeldAt(h, store, open - {k}, cd)
  {
    assert HeldAt(h, store, open, cd);
    ProducersLess(h, open, k, cd);
    SubsetSize(Producers(h, open - {k}, cd), Producers(h, open, cd));
    hide Producers;
  }

  /** A digest some open transaction produced is stored. */
  lemma HeldIsStored(h: Bytes -> Digest, store: map<Digest, Content>, open: map<nat, Tx>, k: nat)
    requires Held(h, store, open) && k in open && open[k].produced.Some?
    ensures h(open[k].produced.value) in store
  {
    var cd := h(open[k].produced.value);
    assert HeldAt(h, store, open, cd);
    assert k in Producers(h, open, cd);
  }

  lemma ActSound(h: Bytes -> Digest, w: World, base: Counters, contents: set<Bytes>, n: nat, k: nat, e: Event)
    requires n > 1 && Sound(h, w, base, contents, n) && Clean(w, k, e) && FillsFrom(e, contents)
    requires Act(h, w, k, e).0.Returned?
    ensures Sound(h, Act(h, w, k, e).1, base, contents, n - 1)
  {
    ActKeepsValid(h, w, k, e);
    ActAccounts(h, w, base, k, e);
    ActStores(h, w, contents, n, k, e);
    ActHolds(h, w, contents, n, k, e);
    ActOwns(h, w, k, e);
    hide ValidWorld, Owns, Held, Headroom, Genuine, Accounted, Act;
  }

  lemma ReserveRest(h: Bytes -> Digest, s: State, req: PublishRequest)
    requires Reserve(h, s, req).0.Returned?
    ensures var (r, t) := Reserve(h, s, req);
      && r.value !in s.artifacts && t.store == s.store
      && exists d: Descriptor :: d.id == r.value && t.artifacts == s.artifacts[r.value := d]
  {
    hide DeriveId;
    var d := req.descriptor;
    var id := if d.id == 0 then DeriveId(h, d).value else d.id;
    var e := d.(id := id, lifecycle := BUILDING);
    assert Reserve(h, s, req).1.artifacts == s.artifacts[id := e] && e.id == id;
  }

  lemma CommitRest(s: State, id: Id, bytes: nat, a: Authority)
    requires Commit(s, id, bytes, a).0.Returned?
    ensures var t := Commit(s, id, bytes, a).1;
      t.store == s.store && id in s.artifacts && t.artifacts == s.artifacts[id := s.artifacts[id].(lifecycle := PUBLISHED)]
  {
    hide Release, CommitCharge, ToI64;
  }

  lemma AbortRest(s: State, id: Id, bytes: nat)
    requires id in s.artifacts && Abort(s, id, bytes).0.Returned?
    ensures var t := Abort(s, id, bytes).1;
      t.store == Released(s.store, s.artifacts[id].contentDigest) && t.artifacts == s.artifacts - {id}
  {
    hide Release, Released;
  }

  lemma ActStores(h: Bytes -> Digest, w: World, contents: set<Bytes>, n: nat, k: nat, e: Event)
    requires n > 1 && ValidWorld(w) && Owns(h, w.cat.artifacts, w.open) && Disciplined(w, k, e) && FillsFrom(e, contents)
    requires Headroom(w.cat.store, n) && Genuine(h, w.cat.store, contents) && Act(h, w, k, e).0.Returned?
    ensures Headroom(Act(h, w, k, e).1.cat.store, n - 1) && Genuine(h, Act(h, w, k, e).1.cat.store, contents)
  {
    hide Valid, Reserve, Commit, Abort, LinkLate, DigestInput, Headroom, Genuine, Stored, Released;
    LessRoom(w.cat.store, n);
    match e
    case Begin(req) => ReserveRest(h, w.cat, req);
    case Fill(content, a) =>
      StoredRoom(w.cat.store, h(content), content, n);
      StoredGenuine(h, w.cat.store, contents, content);
    case Check(_, _) =>
    case Verify(_) =>
    case Finish(a) => CommitRest(w.cat, w.open[k].id, w.open[k].bytes, a);
    case Cancel =>
      assert OwnsOne(h, w.cat.artifacts, w.open[k]);
      AbortRest(w.cat, w.open[k].id, w.open[k].bytes);
      ReleasedRoom(w.cat.store, w.cat.artifacts[w.open[k].id].contentDigest, n - 1);
      ReleasedGenuine(h, w.cat.store, contents, w.cat.artifacts[w.open[k].id].contentDigest);
  }

  lemma ActHolds(h: Bytes -> Digest, w: World, contents: set<Bytes>, n: nat, k: nat, e: Event)
    requires n > 1 && ValidWorld(w) && Owns(h, w.cat.artifacts, w.open) && Clean(w, k, e)
    requires Headroom(w.cat.store, n) && Held(h, w.cat.store, w.open) && Act(h, w, k, e).0.Returned?
    ensures Held(h, Act(h, w, k, e).1.cat.store, Act(h, w, k, e).1.open)
  {
    hide Valid, Reserve, Commit, Abort, LinkLate, DigestInput, Headroom, Stored, Released, HeldAt;
    SomeRoom(w.cat.store, n);
    var v := Act(h, w, k, e).1;
    match e
    case Begin(req) =>
      ReserveRest(h, w.cat, req);
      forall cd ensures HeldAt(h, v.cat.store, v.open, cd) { HeldBegun(h, w.cat.store, w.open, k, v.open[k], cd); }
    case Fill(content, a) =>
      forall cd ensures HeldAt(h, v.cat.store, v.open, cd) { HeldMore(h, w.cat.store, w.open, k, v.open[k], cd); }
    case Check(_, _) =>
    case Verify(_) =>
    case Finish(a) =>
      CommitRest(w.cat, w.open[k].id, w.open[k].bytes, a);
      forall cd ensures HeldAt(h, v.cat.store, v.open, cd) { HeldDropped(h, w.cat.store, w.open, k, cd); }
    case Cancel =>
      assert OwnsOne(h, w.cat.artifacts, w.open[k]);
      AbortRest(w.cat, w.open[k].id, w.open[k].bytes);
      if w.open[k].produced.Some? {
        forall cd ensures HeldAt(h, v.cat.store, v.open, cd) { HeldLess(h, w.cat.store, w.open, k, cd); }
      } else {
        ReleaseAbsent(w.cat.store, w.cat.artifacts[w.open[k].id].contentDigest);
        forall cd ensures HeldAt(h, v.cat.store, v.open, cd) { HeldDropped(h, w.cat.store, w.open, k, cd); }
      }
  }

  lemma SomeRoom(store: map<Digest, Content>, n: nat)
    requires n > 1 && Headroom(store, n)
    ensures Headroom(store, 1)
  {
  }

  lemma HeldBegun(h: Bytes -> Digest, store: map<Digest, Content>, open: map<nat, Tx>, k: nat, tx: Tx, cd: Digest)
    requires Held(h, store, open) && k !in open && tx.produced.None?
    ensures HeldAt(h, store, open[k := tx], cd)
  {
    assert HeldAt(h, store, open, cd);
    ProducersUnproduced(h, open, k, tx, cd);
    hide Producers;
  }

  lemma ActOwns(h: Bytes -> Digest, w: World, k: nat, e: Event)
    requires ValidWorld(w) && Owns(h, w.cat.artifacts, w.open) && Disciplined(w, k, e) && Act(h, w, k, e).0.Returned?
    ensures Owns(h, Act(h, w, k, e).1.cat.artifacts, Act(h, w, k, e).1.open)
  {
    hide Valid, Reserve, Commit, Abort, LinkLate, DigestInput, Stored, Released, Owns;
    var v := Act(h, w, k, e).1;
    match e
    case Begin(req) =>
      ReserveRest(h, w.cat, req);
      var id := Reserve(h, w.cat, req).0.value;
      var d: Descriptor :| d.id == id && v.cat.artifacts == w.cat.artifacts[id := d];
      OwnsMore(h, w.cat.artifacts, w.open, k, d, |req.content|);
    case Fill(content, a) =>
      OwnsChanged(h, w.cat.artifacts, w.open, k, v.open[k], v.cat.artifacts[w.open[k].id]);
    case Check(_, _) =>
      OwnsHere(h, w.cat.artifacts, w.open, k);
      OwnsChanged(h, w.cat.artifacts, w.open, k, w.open[k], v.cat.artifacts[w.open[k].id]);
      assert w.open[k := w.open[k]] == w.open;
    case Verify(_) =>
      OwnsHere(h, w.cat.artifacts, w.open, k);
      OwnsChanged(h, w.cat.artifacts, w.open, k, w.open[k], v.cat.artifacts[w.open[k].id]);
      assert w.open[k := w.open[k]] == w.open;
    case Finish(a) =>
      CommitRest(w.cat, w.open[k].id, w.open[k].bytes, a);
      OwnsCommitted(h, w.cat.artifacts, w.open, k, v.cat.artifacts[w.open[k].id]);
    case Cancel =>
      OwnsLess(h, w.cat.artifacts, w.open, k);
      AbortRest(w.cat, w.open[k].id, w.open[k].bytes);
  }

  lemma OwnsHere(h: Bytes -> Digest, m: map<Id, Descriptor>, open: map<nat, Tx>, k: nat)
    requires Owns(h, m, open) && k in open
    ensures OwnsOne(h, m, open[k])
  {
  }

  // ---- two worlds, with and without transaction `k` -------------------------------------

  function TxOf(w: World, k: nat): Option<Tx> {
    if k in w.open then Some(w.open[k]) else None
  }

  ghost predicate Beside(h: Bytes -> Digest, w: World, v: World, k: nat, exact: bool) {
    v.open == w.open - {k} && Shadows(h, w.cat, v.cat, TxOf(w, k), exact)
  }

  /** What `k` produced, if anything, is one of the contents. */
  predicate ProducedFrom(tx: Option<Tx>, contents: set<Bytes>) {
    tx.Some? && tx.value.produced.Some? ==> tx.value.produced.value in contents
  }

  lemma {:induction false} ReservedNonNegative(open: map<nat, Tx>)
    ensures Ledger.Total(Reserved(open)) >= 0
    decreases |open|
  {
    if open == map[] {
    } else {
      var k := Pick(open.Keys);
      CloseOne(open, k);
      ReservedNonNegative(open - {k});
    }
  }

  lemma Solvent(c: Counters, base: Counters, open: map<nat, Tx>, j: nat)
    requires Accounted(c, base, open) && base.buildReservations >= 0 && base.temporaryBytes >= 0
    ensures c.temporaryBytes >= 0
    ensures j in open ==> c.buildReservations > 0 && c.temporaryBytes >= open[j].bytes
  {
    hide Reserved, Ledger.Total;
    ReservedNonNegative(open);
    if j in open {
      CloseOne(open, j);
      ReservedNonNegative(open - {j});
    }
  }

  lemma ProducedDiffers(h: Bytes -> Digest, tx: Option<Tx>, contents: set<Bytes>, store: map<Digest, Content>, content: Bytes)
    requires CollisionFree(h, contents) && Genuine(h, store, contents) && ProducedFrom(tx, contents)
    ensures tx.Some? && tx.value.produced.Some? && h(tx.value.produced.value) in store ==>
              store[h(tx.value.produced.value)].bytes == tx.value.produced.value
    ensures content in contents && tx.Some? && tx.value.produced.Some? && h(tx.value.produced.value) == h(content) ==>
              tx.value.produced.value == content
  {
  }

  lemma StoreGrows(h: Bytes -> Digest, store: map<Digest, Content>, tx: Option<Tx>, cd: Digest)
    ensures cd in store ==> cd in WithTx(h, store, tx)
  {
  }

  /** Whatever another transaction may do beside `k`, it may do without it. */
  lemma OtherClean(h: Bytes -> Digest, w: World, v: World, k: nat, j: nat, e: Event, exact: bool)
    requires Beside(h, w, v, k, exact) && j != k && Clean(w, j, e) && Owns(h, v.cat.artifacts, v.open)
    ensures Clean(v, j, e)
  {
    hide ArtifactsMatch, GraphsMatch, WithTx, WithReservation, Alike, Owns;
    if e.Cancel? && w.open[j].produced.None? {
      OwnsHere(h, v.cat.artifacts, v.open, j);
      var id := v.open[j].id;
      MatchAt(w.cat.artifacts, v.cat.artifacts, TxOf(w, k), exact, id);
      AlikeUpdate(w.cat.artifacts[id], v.cat.artifacts[id], VALID, 0, VALIDATED);
      StoreGrows(h, v.cat.store, TxOf(w, k), v.cat.artifacts[id].contentDigest);
    }
  }

  lemma OtherStep(h: Bytes -> Digest, w: World, v: World, k: nat, j: nat, e: Event, exact: bool,
                  base: Counters, contents: set<Bytes>, n: nat)
    requires n > 1 && ValidWorld(w) && Beside(h, w, v, k, exact) && j != k
    requires Sound(h, v, base, contents, n) && CollisionFree(h, contents) && ProducedFrom(TxOf(w, k), contents)
    requires Clean(w, j, e) && FillsFrom(e, contents) && Act(h, w, j, e).0.Returned?
    ensures Act(h, v, j, e).0.Returned?
    ensures Beside(h, Act(h, w, j, e).1, Act(h, v, j, e).1, k, exact)
    ensures TxOf(Act(h, w, j, e).1, k) == TxOf(w, k)
  {
    hide Valid, Shadows, Reserve, Produce, ValidatePublish, VerifyDependencies, Commit, Abort, Owns, Held, Headroom, Genuine,
      Accounted, CollisionFree, ProducedFrom;
    var tx := TxOf(w, k);
    Solvent(v.cat.counters, base, v.open, j);
    SomeRoom(v.cat.store, n);
    if e.Begin? {
      ReserveShadow(h, w.cat, v.cat, tx, exact, e.req);
    } else {
      OwnsHere(h, v.cat.artifacts, v.open, j);
      var id := v.open[j].id;
      ProducedDiffers(h, tx, contents, v.cat.store, if e.Fill? then e.content else []);
      match e
      case Begin(_) =>
      case Fill(content, a) => ProduceShadow(h, w.cat, v.cat, tx, exact, id, content, a);
      case Check(report, a) => ValidateShadow(h, w.cat, v.cat, tx, exact, id, report, a);
      case Verify(a) => VerifyShadow(h, w.cat, v.cat, tx, exact, id, a);
      case Finish(a) => CommitShadow(h, w.cat, v.cat, tx, exact, id, v.open[j].bytes, a);
      case Cancel =>
        CancelDigest(h, w, v, k, j, exact);
        AbortShadow(h, w.cat, v.cat, tx, exact, id, v.open[j].bytes);
    }
    OpenCommutes(w.open, k, j, if j in Act(h, w, j, e).1.open then Act(h, w, j, e).1.open[j] else Tx(0, 0, None));
  }

  lemma CancelDigest(h: Bytes -> Digest, w: World, v: World, k: nat, j: nat, exact: bool)
    requires Beside(h, w, v, k, exact) && j != k && Clean(w, j, Cancel)
    requires Owns(h, v.cat.artifacts, v.open) && Held(h, v.cat.store, v.open)
    ensures j in v.open && v.open[j].id in v.cat.artifacts
    ensures var cd := v.cat.artifacts[v.open[j].id].contentDigest; cd in v.cat.store || cd !in w.cat.store
  {
    hide ArtifactsMatch, GraphsMatch, WithTx, WithReservation, Alike, Owns, Held;
    OwnsHere(h, v.cat.artifacts, v.open, j);
    var id := v.open[j].id;
    MatchAt(w.cat.artifacts, v.cat.artifacts, TxOf(w, k), exact, id);
    AlikeUpdate(w.cat.artifacts[id], v.cat.artifacts[id], VALID, 0, VALIDATED);
    if v.open[j].produced.Some? { HeldIsStored(h, v.cat.store, v.open, j); }
  }

  lemma OpenCommutes(open: map<nat, Tx>, k: nat, j: nat, tx: Tx)
    requires j != k
    ensures open[j := tx] - {k} == (open - {k})[j := tx]
    ensures open - {j} - {k} == open - {k} - {j}
  {
  }

  /** The steps of `k` itself change only its own side. */
  lemma OwnStep(h: Bytes -> Digest, w: World, v: World, k: nat, e: Event, exact: bool, contents: set<Bytes>)
    requires ValidWorld(w) && Beside(h, w, v, k, exact) && Headroom(v.cat.store, 1)
    requires Clean(w, k, e) && FillsFrom(e, contents) && !e.Finish? && (exact ==> !e.Verify?)
    requires ProducedFrom(TxOf(w, k), contents) && Act(h, w, k, e).0.Returned?
    ensures Beside(h, Act(h, w, k, e).1, v, k, exact) && ProducedFrom(TxOf(Act(h, w, k, e).1, k), contents)
  {
    hide Valid, Shadows, Reserve, Produce, ValidatePublish, VerifyDependencies, Commit, Abort, Headroom;
    var now := if k in Act(h, w, k, e).1.open then Act(h, w, k, e).1.open[k] else Tx(0, 0, None);
    assert w.open[k := now] - {k} == w.open - {k};
    assert w.open - {k} - {k} == w.open - {k};
    match e
    case Begin(req) => BeginShadow(h, w.cat, v.cat, exact, req);
    case Fill(content, a) => FillShadow(h, w.cat, v.cat, w.open[k], exact, content, a);
    case Check(report, a) => CheckShadow(h, w.cat, v.cat, w.open[k], exact, report, a);
    case Verify(a) => OwnVerifyShadow(h, w.cat, v.cat, w.open[k], a);
    case Cancel =>
      OwnDigest(h, w.cat, v.cat, w.open[k], exact);
      CancelShadow(h, w.cat, v.cat, w.open[k], exact);
  }

  lemma OwnDigest(h: Bytes -> Digest, s: State, t: State, tx: Tx, exact: bool)
    requires Shadows(h, s, t, Some(tx), exact)
    ensures tx.id in s.artifacts
  {
  }

  // ---- whole runs -----------------------------------------------------------------------

  /** Every step is clean and returns normally. */
  ghost predicate CleanRun(h: Bytes -> Digest, w: World, ev: Run)
    requires ValidWorld(w)
  {
    ev == []
    || (CleanRun(h, w, ev[..|ev| - 1])
        && var u := AfterSteps(h, w, ev[..|ev| - 1]); var (k, e) := ev[|ev| - 1];
           Clean(u, k, e) && Act(h, u, k, e).0.Returned?)
  }

  /** The run without the steps of transaction `k`. */
  function Without(ev: Run, k: nat): Run {
    if ev == [] then []
    else Without(ev[..|ev| - 1], k) + if ev[|ev| - 1].0 == k then [] else [ev[|ev| - 1]]
  }

  predicate NeverFinishes(ev: Run, k: nat) {
    forall i :: 0 <= i < |ev| && ev[i].0 == k ==> !ev[i].1.Finish?
  }

  predicate NeverVerifies(ev: Run, k: nat) {
    forall i :: 0 <= i < |ev| && ev[i].0 == k ==> !ev[i].1.Verify?
  }

  predicate AllFillFrom(ev: Run, contents: set<Bytes>) {
    forall i :: 0 <= i < |ev| ==> FillsFrom(ev[i].1, contents)
  }

  /** A catalog transactions can start from: contents stored under their digests, counters not
      negative, room for the references of the run. */
  ghost predicate Ready(h: Bytes -> Digest, s: State, contents: set<Bytes>, n: nat) {
    && Valid(s.graph) && |s.graph.nodes| <= MAX_NODES
    && Genuine(h, s.store, contents) && CollisionFree(h, contents) && Headroom(s.store, n)
    && s.counters.buildReservations >= 0 && s.counters.temporaryBytes >= 0
  }

  lemma ReadyIsSound(h: Bytes -> Digest, s: State, contents: set<Bytes>, n: nat)
    requires Ready(h, s, contents, n)
    ensures Sound(h, World(s, map[]), s.counters, contents, n)
  {
    hide Valid, Headroom, Genuine;
    forall cd ensures HeldAt(h, s.store, map[], cd) { assert Producers(h, map[], cd) == {}; }
  }

  lemma ReadyShadows(h: Bytes -> Digest, s: State, k: nat, exact: bool, contents: set<Bytes>, n: nat)
    requires Ready(h, s, contents, n)
    ensures Beside(h, World(s, map[]), World(s, map[]), k, exact)
  {
    hide Valid, Headroom, Genuine, Alike;
    forall id | id in s.artifacts ensures Alike(s.artifacts[id], s.artifacts[id]) { AlikeSelf(s.artifacts[id]); }
    var none: map<nat, Tx> := map[];
    assert none - {k} == none;
  }

  lemma ReadyIsValid(h: Bytes -> Digest, s: State, contents: set<Bytes>, n: nat)
    requires Ready(h, s, contents, n)
    ensures ValidWorld(World(s, map[]))
  {
  }

  lemma WithoutOne(ev: Run, k: nat)
    requires ev != []
    ensures ev[|ev| - 1].0 == k ==> Without(ev, k) == Without(ev[..|ev| - 1], k)
    ensures ev[|ev| - 1].0 != k ==> var r := Without(ev, k);
      r != [] && r[..|r| - 1] == Without(ev[..|ev| - 1], k) && r[|r| - 1] == ev[|ev| - 1]
  {
  }

  lemma LessSound(h: Bytes -> Digest, w: World, base: Counters, contents: set<Bytes>, n: nat)
    requires n > 1 && Sound(h, w, base, contents, n)
    ensures Sound(h, w, base, contents, n - 1) && Headroom(w.cat.store, 1)
  {
    hide ValidWorld, Owns, Held, Headroom, Genuine, Accounted;
    LessRoom(w.cat.store, n);
    SomeRoom(w.cat.store, n);
  }

  lemma StepsUnfold(h: Bytes -> Digest, w: World, ev: Run)
    requires ValidWorld(w)
    ensures ev == [] ==> AfterSteps(h, w, ev) == w && CleanRun(h, w, ev) && forall k :: Without(ev, k) == []
    ensures ev != [] ==> var u := AfterSteps(h, w, ev[..|ev| - 1]); var x := ev[|ev| - 1];
      && AfterSteps(h, w, ev) == Act(h, u, x.0, x.1).1
      && (CleanRun(h, w, ev) <==> CleanRun(h, w, ev[..|ev| - 1]) && Clean(u, x.0, x.1) && Act(h, u, x.0, x.1).0.Returned?)
  {
    hide Act, Clean, ValidWorld;
  }

  /** The run with and the run without the steps of `k` go side by side. */
  lemma {:induction false} SideBySide(h: Bytes -> Digest, s: State, ev: Run, k: nat, exact: bool, contents: set<Bytes>, n: nat)
    requires n > |ev| + 1 && Ready(h, s, contents, n) && AllFillFrom(ev, contents)
    requires CleanRun(h, World(s, map[]), ev) && NeverFinishes(ev, k) && (exact ==> NeverVerifies(ev, k))
    ensures var o := World(s, map[]); var w, v := AfterSteps(h, o, ev), AfterSteps(h, o, Without(ev, k));
      && CleanRun(h, o, Without(ev, k))
      && Beside(h, w, v, k, exact) && ProducedFrom(TxOf(w, k), contents)
      && Sound(h, v, s.counters, contents, n - |ev|)
  {
    hide Act, Clean, Sound, Beside, ValidWorld, ProducedFrom, FillsFrom, Ready, AfterSteps, CleanRun, Without, TxOf;
    var o := World(s, map[]);
    ReadyIsValid(h, s, contents, n);
    StepsUnfold(h, o, ev);
    if ev == [] {
      ReadyIsSound(h, s, contents, n);
      ReadyShadows(h, s, k, exact, contents, n);
      NothingProduced(s, k, contents);
    } else {
      var init, last := ev[..|ev| - 1], ev[|ev| - 1];
      SideBySide(h, s, init, k, exact, contents, n);
      WithoutOne(ev, k);
      StepsUnfold(h, o, Without(ev, k));
      var w, v := AfterSteps(h, o, init), AfterSteps(h, o, Without(init, k));
      LessSound(h, v, s.counters, contents, n - |init|);
      ReadyCollisionFree(h, s, contents, n);
      if last.0 == k {
        OwnStep(h, w, v, k, last.1, exact, contents);
      } else {
        SoundOwns(h, v, s.counters, contents, n - |init|);
        OtherClean(h, w, v, k, last.0, last.1, exact);
        OtherStep(h, w, v, k, last.0, last.1, exact, s.counters, contents, n - |init|);
        ActSound(h, v, s.counters, contents, n - |init|, last.0, last.1);
      }
    }
  }

  lemma NothingProduced(s: State, k: nat, contents: set<Bytes>)
    ensures ProducedFrom(TxOf(World(s, map[]), k), contents)
  {
  }

  lemma ReadyCollisionFree(h: Bytes -> Digest, s: State, contents: set<Bytes>, n: nat)
    requires Ready(h, s, contents, n)
    ensures CollisionFree(h, contents)
  {
  }

  lemma SoundOwns(h: Bytes -> Digest, w: World, base: Counters, contents: set<Bytes>, n: nat)
    requires Sound(h, w, base, contents, n)
    ensures Owns(h, w.cat.artifacts, w.open)
  {
  }

  /** A transaction that was aborted leaves no trace. Take any interleaving of transactions in
      which `k` began and was aborted, and remove all its steps: the rest is still a run in
      which everything returns; it ends with the same artifacts, the same content store with
      the same reference counts and the same counters. The next generation aside, the two
      catalogs are equal if `k` verified no dependencies; if it did, its edges stay in the
      graph, and the closure digests of other artifacts may differ. */
  lemma AbortLeavesNoTrace(h: Bytes -> Digest, s: State, ev: Run, k: nat, contents: set<Bytes>, n: nat)
    requires n > |ev| + 1 && Ready(h, s, contents, n) && AllFillFrom(ev, contents)
    requires CleanRun(h, World(s, map[]), ev) && NeverFinishes(ev, k) && k !in AfterSteps(h, World(s, map[]), ev).open
    ensures var o := World(s, map[]);
      && CleanRun(h, o, Without(ev, k))
      && var w, v := AfterSteps(h, o, ev), AfterSteps(h, o, Without(ev, k));
      && w.open == v.open
      && w.cat.artifacts.Keys == v.cat.artifacts.Keys
      && (forall id :: id in v.cat.artifacts ==> Alike(w.cat.artifacts[id], v.cat.artifacts[id]))
      && w.cat.store == v.cat.store && w.cat.counters == v.cat.counters && w.cat.indexed == v.cat.indexed
      && (NeverVerifies(ev, k) ==> w.cat == v.cat.(nextGeneration := w.cat.nextGeneration))
  {
    hide AfterSteps, CleanRun, Sound, Ready, Alike, Shadows, ValidWorld, NeverVerifies, ProducedFrom;
    SideBySide(h, s, ev, k, NeverVerifies(ev, k), contents, n);
    ReadyIsValid(h, s, contents, n);
    var o := World(s, map[]);
    var w, v := AfterSteps(h, o, ev), AfterSteps(h, o, Without(ev, k));
    assert w.open - {k} == w.open;
    ShadowsNone(h, w.cat, v.cat, NeverVerifies(ev, k));
  }

  /** With the transaction gone, the two catalogs agree. */
  lemma ShadowsNone(h: Bytes -> Digest, s: State, t: State, exact: bool)
    requires Shadows(h, s, t, None, exact)
    ensures s.artifacts.Keys == t.artifacts.Keys
    ensures forall id :: id in t.artifacts ==> Alike(s.artifacts[id], t.artifacts[id])
    ensures s.store == t.store && s.counters == t.counters && s.indexed == t.indexed
    ensures exact ==> s == t.(nextGeneration := s.nextGeneration)
  {
    hide Alike;
    if exact { assert s.artifacts == t.artifacts; }
  }

  // ---- exactly when the reference counts stay right -------------------------------------

  /** The references a step takes for its transaction, or gives back: one when it produces the
      content, and that one again when it is aborted. */
  function Owed(h: Bytes -> Digest, open: map<nat, Tx>, k: nat, e: Event, cd: Digest): int {
    if e.Fill? && h(e.content) == cd then 1
    else if e.Cancel? && k in Producers(h, open, cd) then -1
    else 0
  }

  ghost predicate ConservesAt(h: Bytes -> Digest, w: World, v: World, k: nat, e: Event, cd: Digest) {
    CountOf(v.cat.store, cd) == CountOf(w.cat.store, cd) + Owed(h, w.open, k, e, cd)
  }

  /** Every reference count changes by what the step owes. */
  ghost predicate Conserves(h: Bytes -> Digest, w: World, k: nat, e: Event)
    requires ValidWorld(w)
  {
    forall cd :: ConservesAt(h, w, Act(h, w, k, e).1, k, e, cd)
  }

  ghost predicate Conserved(h: Bytes -> Digest, w: World, ev: Run)
    requires ValidWorld(w)
  {
    ev == []
    || (Conserved(h, w, ev[..|ev| - 1])
        && Conserves(h, AfterSteps(h, w, ev[..|ev| - 1]), ev[|ev| - 1].0, ev[|ev| - 1].1))
  }

  lemma StoredCount(store: map<Digest, Content>, cd: Digest, content: Bytes, x: Digest)
    requires Headroom(store, 1)
    ensures CountOf(Stored(store, cd, content), x) == CountOf(store, x) + if x == cd then 1 else 0
  {
  }

  lemma ReleasedCount(store: map<Digest, Content>, cd: Digest, x: Digest)
    requires Headroom(store, 1)
    ensures CountOf(Released(store, cd), x) == CountOf(store, x) - if x == cd && cd in store then 1 else 0
  {
  }

  /** An abort gives back what its transaction took, and nothing else, exactly when the
      transaction produced its content, or nothing is stored under the digest it claims. */
  lemma CancelConservesIff(h: Bytes -> Digest, w: World, k: nat)
    requires ValidWorld(w) && Owns(h, w.cat.artifacts, w.open) && Held(h, w.cat.store, w.open) && Headroom(w.cat.store, 1)
    requires k in w.open && Act(h, w, k, Cancel).0.Returned?
    ensures w.open[k].id in w.cat.artifacts
    ensures Conserves(h, w, k, Cancel) <==>
      w.open[k].produced.Some? || w.cat.artifacts[w.open[k].id].contentDigest !in w.cat.store
  {
    hide Valid, Held, Headroom, Abort, Released, CountOf;
    var tx := w.open[k];
    assert OwnsOne(h, w.cat.artifacts, tx);
    var d := w.cat.artifacts[tx.id].contentDigest;
    AbortRest(w.cat, tx.id, tx.bytes);
    var v := Act(h, w, k, Cancel).1;
    forall cd ensures CountOf(v.cat.store, cd) == CountOf(w.cat.store, cd) - if cd == d && d in w.cat.store then 1 else 0 {
      ReleasedCount(w.cat.store, d, cd);
    }
    if tx.produced.Some? {
      HeldIsStored(h, w.cat.store, w.open, k);
      forall cd ensures ConservesAt(h, w, v, k, Cancel, cd) { ProducersLess(h, w.open, k, cd); }
    } else if d in w.cat.store {
      ProducersLess(h, w.open, k, d);
      assert !ConservesAt(h, w, v, k, Cancel, d);
    }
  }

  lemma StepConservesIff(h: Bytes -> Digest, w: World, k: nat, e: Event)
    requires ValidWorld(w) && Owns(h, w.cat.artifacts, w.open) && Held(h, w.cat.store, w.open) && Headroom(w.cat.store, 1)
    requires Disciplined(w, k, e) && Act(h, w, k, e).0.Returned?
    ensures Conserves(h, w, k, e) <==> Clean(w, k, e)
  {
    hide Valid, Held, Owns, Headroom, Reserve, Commit, Abort, LinkLate, DigestInput, Stored, Released, CountOf;
    var v := Act(h, w, k, e).1;
    match e
    case Begin(req) => ReserveRest(h, w.cat, req);
    case Fill(content, a) =>
      forall cd ensures ConservesAt(h, w, v, k, e, cd) { StoredCount(w.cat.store, h(content), content, cd); }
    case Check(_, _) =>
    case Verify(_) =>
    case Finish(a) => CommitRest(w.cat, w.open[k].id, w.open[k].bytes, a);
    case Cancel => CancelConservesIff(h, w, k);
  }

  /** Over a whole run of transactions that keep their discipline: every reference count stays
      what was produced and not given back, exactly when no transaction that produced nothing is
      aborted while a content is stored under the digest it claims. */
  lemma {:induction false} ConservedIffClean(h: Bytes -> Digest, s: State, ev: Run, contents: set<Bytes>, n: nat)
    requires n > |ev| + 1 && Ready(h, s, contents, n) && AllFillFrom(ev, contents)
    requires ValidWorld(World(s, map[])) && Orderly(h, World(s, map[]), ev)
    ensures Conserved(h, World(s, map[]), ev) <==> CleanRun(h, World(s, map[]), ev)
    ensures CleanRun(h, World(s, map[]), ev) ==> Sound(h, AfterSteps(h, World(s, map[]), ev), s.counters, contents, n - |ev|)
  {
    hide Act, Clean, Disciplined, Conserves, Sound, ValidWorld, FillsFrom, Ready;
    var o := World(s, map[]);
    if ev == [] {
      ReadyIsSound(h, s, contents, n);
    } else {
      var init, k, e := ev[..|ev| - 1], ev[|ev| - 1].0, ev[|ev| - 1].1;
      ConservedIffClean(h, s, init, contents, n);
      if CleanRun(h, o, init) {
        var u := AfterSteps(h, o, init);
        SoundParts(h, u, s.counters, contents, n - |init|);
        StepConservesIff(h, u, k, e);
        if Clean(u, k, e) { ActSound(h, u, s.counters, contents, n - |init|, k, e); }
      }
    }
  }

  lemma SoundParts(h: Bytes -> Digest, w: World, base: Counters, contents: set<Bytes>, n: nat)
    requires n > 1 && Sound(h, w, base, contents, n)
    ensures Owns(h, w.cat.artifacts, w.open) && Held(h, w.cat.store, w.open) && Headroom(w.cat.store, 1)
  {
    hide Owns, Held, Genuine, Accounted, Valid, Headroom;
    SomeRoom(w.cat.store, n);
  }
}
