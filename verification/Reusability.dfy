/** Exactly when something that depends on an invalidated artifact is reported reusable. */
module Reusability {
  import opened Types
  import opened Lifecycle
  import opened GraphModel
  import opened DescriptorFormat
  import opened Derivation
  import opened CatalogModel
  import opened CatalogEffects
  import opened CatalogRuns
  import opened Publications
  import opened Compatibility
  import opened Reuse
  import opened Safety

  // ---- reusable under some requirement --------------------------------------------------

  /** A requirement that asks for nothing. */
  const ANYTHING := Requirement(
    None, None, None, None, None, None, None, None, None, None, None, None, None, None, None, None, None, None, None,
    None, None, None, None, false, false)

  /** The part of the gates that lifecycle calls decide. */
  predicate Standing(d: Descriptor) {
    !Unusable(d.lifecycle) && (d.validation == VALIDATED || d.validation == INTEGRITY_OK)
  }

  predicate Placed(d: Descriptor) {
    d.placements == [] || exists k :: 0 <= k < |d.placements| && d.placements[k].integrityOk
  }

  /** The part that was decided when the artifact was made, and its direct dependencies, with
      those in `also` taken for fresh. */
  predicate Founded(m: map<Id, Descriptor>, d: Descriptor, also: set<Id>) {
    d.provenance != 0 && Placed(d) && forall dep :: dep in Targets(d.dependencies) ==> dep in also || FreshAmong(m, dep)
  }

  ghost predicate EverReusable(s: State, x: Id) {
    exists r :: ReusableIn(s, x, r)
  }

  lemma FreshTargets(m: map<Id, Descriptor>, d: Descriptor)
    ensures Fails(d, ANYTHING, InputsFor(m, d).isFresh, DependencyDim) <==>
      exists dep :: dep in Targets(d.dependencies) && !FreshAmong(m, dep)
  {
    if dep :| dep in Targets(d.dependencies) && !FreshAmong(m, dep) {
      var i :| 0 <= i < |d.dependencies| && Targets(d.dependencies)[i] == dep;
      assert !FreshAmong(m, d.dependencies[i].artifact);
    }
    if i :| 0 <= i < |d.dependencies| && !FreshAmong(m, d.dependencies[i].artifact) {
      assert Targets(d.dependencies)[i] in Targets(d.dependencies);
    }
  }

  lemma DependencyFails(d: Descriptor, r: Requirement, f: Freshness)
    ensures Fails(d, r, f, DependencyDim) == Fails(d, ANYTHING, f, DependencyDim)
  {
  }

  lemma NothingElseFails(d: Descriptor, f: Freshness, dim: Dimension)
    requires dim != DependencyDim
    ensures !Fails(d, ANYTHING, f, dim)
  {
  }

  /** What `Standing` and `Founded` come to, without the names. */
  ghost predicate InOrder(m: map<Id, Descriptor>, d: Descriptor) {
    && d.lifecycle in {DECLARED, BUILDING, VALIDATING, VALID, PUBLISHED, ACTIVE}
    && d.validation in {VALIDATED, INTEGRITY_OK}
    && d.provenance != 0
    && (d.placements == [] || exists k :: 0 <= k < |d.placements| && d.placements[k].integrityOk)
    && forall k :: 0 <= k < |d.dependencies| ==>
         var dep := d.dependencies[k].artifact;
         dep in m && m[dep].lifecycle !in {INVALIDATED, RETIRED, EVICTED, QUARANTINED}
  }

  lemma InOrderIs(m: map<Id, Descriptor>, d: Descriptor)
    ensures InOrder(m, d) <==> Standing(d) && Founded(m, d, {})
  {
    var ts := Targets(d.dependencies);
    forall k | 0 <= k < |d.dependencies| ensures ts[k] == d.dependencies[k].artifact && ts[k] in ts { }
  }

  /** An artifact is reusable under some requirement exactly when it stands and is founded. */
  lemma EverReusableIff(s: State, x: Id)
    ensures EverReusable(s, x) <==>
      x in s.artifacts && Standing(s.artifacts[x]) && Founded(s.artifacts, s.artifacts[x], {})
    ensures EverReusable(s, x) <==> x in s.artifacts && InOrder(s.artifacts, s.artifacts[x])
  {
    hide Fails, InOrder;
    if x in s.artifacts { InOrderIs(s.artifacts, s.artifacts[x]); }
    if x in s.artifacts {
      var d := s.artifacts[x];
      var i := InputsFor(s.artifacts, d);
      FreshTargets(s.artifacts, d);
      if r :| ReusableIn(s, x, r) {
        ReusableIff(d, r, i);
        DependencyFails(d, r, i.isFresh);
        assert DependencyDim in ALL_CHECKS;
      }
      if Standing(d) && Founded(s.artifacts, d, {}) {
        ReusableIff(d, ANYTHING, i);
        forall dim | dim in ALL_CHECKS ensures !Fails(d, ANYTHING, i.isFresh, dim) {
          if dim != DependencyDim { NothingElseFails(d, i.isFresh, dim); }
        }
        assert ReusableIn(s, x, ANYTHING);
      }
    }
  }

  /** `e` or something that depends on it. */
  ghost predicate Concerned(g: Graph, e: Id, x: Id) {
    x == e || DependsOn(g, x, e)
  }

  /** Neither `e` nor anything that depends on it is reusable, under any requirement. */
  ghost predicate Unreusable(s: State, e: Id) {
    forall x :: Concerned(s.graph, e, x) ==> !EverReusable(s, x)
  }

  // ---- what a new node changes ----------------------------------------------------------

  lemma {:induction false} WaysThrough(g: Graph, k: Graph, id: Id, deps: seq<DependencyRef>, e: Id, p: seq<Id>)
    requires Extended(g, k, id, deps) && IsPath(k, p) && p[|p| - 1] == e
    ensures Reaches(g, p[0], e) || Reaches(g, p[0], id)
  {
    if |p| == 1 {
      ReachesSelf(g, e);
    } else {
      var q := p[1..];
      forall i | 0 <= i < |q| - 1 ensures Edge(k, q[i], q[i + 1]) { assert q[i] == p[i + 1] && q[i + 1] == p[i + 2]; }
      WaysThrough(g, k, id, deps, e, q);
      assert Edge(k, p[0], p[0 + 1]);
      if p[0] == id {
        ReachesSelf(g, id);
      } else if Reaches(g, p[1], e) {
        EdgeThenReaches(g, p[0], p[1], e);
      } else {
        EdgeThenReaches(g, p[0], p[1], id);
      }
    }
  }

  lemma StillDepends(g: Graph, k: Graph, id: Id, deps: seq<DependencyRef>, x: Id, e: Id)
    requires Extended(g, k, id, deps) && DependsOn(g, x, e)
    ensures DependsOn(k, x, e)
  {
    var c :| Through(g, x, c, e);
    var p :| Joins(g, p, c, e);
    assert Joins(k, p, c, e);
    assert Through(k, x, c, e);
  }

  /** After a new node was linked: who is concerned by `e`. */
  lemma ConcernedAfter(g: Graph, k: Graph, id: Id, deps: seq<DependencyRef>, e: Id, x: Id)
    requires Extended(g, k, id, deps)
    ensures Concerned(k, e, x) <==>
      Concerned(g, e, x) || (!Untainted(g, deps, e) && (x == id || DependsOn(g, x, id)))
  {
    hide Extended, Untainted;
    if Concerned(k, e, x) && x != e {
      if Untainted(g, deps, e) {
        NoNewDependents(g, k, id, deps, e, x);
      } else {
        DependsReaches(k, x, e);
        var p :| Joins(k, p, x, e);
        WaysThrough(g, k, id, deps, e, p);
        if Reaches(g, x, e) { ReachesSplit(g, x, e); } else { ReachesSplit(g, x, id); }
      }
    }
    if DependsOn(g, x, e) { StillDepends(g, k, id, deps, x, e); }
    if !Untainted(g, deps, e) {
      NewDependent(g, k, id, deps, e);
      if DependsOn(g, x, id) {
        StillDepends(g, k, id, deps, x, id);
        DependsReaches(k, id, e);
        DependsThenReaches(k, x, id, e);
      }
    }
  }

  // ---- a new artifact -------------------------------------------------------------------

  /** No artifact that is concerned by `e`, or would be through `id`, waits for `id` alone. */
  ghost predicate NoneWaits(s: State, e: Id, id: Id, deps: seq<DependencyRef>) {
    forall y :: y in s.artifacts && (Concerned(s.graph, e, y) || (!Untainted(s.graph, deps, e) && DependsOn(s.graph, y, id))) ==>
      !(Standing(s.artifacts[y]) && Founded(s.artifacts, s.artifacts[y], {id}))
  }

  /** Publishing `d` makes nothing reusable that depends on `e`: no artifact waits for it, and
      it names nothing that is `e` or depends on `e`, or is itself unfounded. */
  ghost predicate Harmless(s: State, e: Id, d: Descriptor) {
    && NoneWaits(s, e, d.id, d.dependencies)
    && (Untainted(s.graph, d.dependencies, e) || !Founded(s.artifacts, d, {}))
  }

  /** A fresh artifact in addition. */
  lemma FoundedAfter(m: map<Id, Descriptor>, n: map<Id, Descriptor>, id: Id, d: Descriptor)
    requires id !in m && id in n && n == m[id := n[id]] && FreshAmong(n, id)
    ensures Founded(n, d, {}) <==> Founded(m, d, {id})
    ensures id !in Targets(d.dependencies) ==> (Founded(m, d, {id}) <==> Founded(m, d, {}))
  {
    hide Placed, Targets;
    forall dep ensures FreshAmong(n, dep) <==> dep in {id} || FreshAmong(m, dep) {
    }
  }

  lemma NotOwnTarget(g: Graph, id: Id, deps: seq<DependencyRef>)
    requires Valid(g) && Link(g, id, deps).0.Returned?
    ensures id !in Targets(deps)
  {
    hide Valid, Link;
    LinkReturnsIff(g, id, deps);
  }

  lemma NoEdgesOutOf(s: State, id: Id)
    requires Rooted(s) && id !in s.artifacts
    ensures Direct(s.graph, id) == [] && forall e :: !DependsOn(s.graph, id, e)
  {
    assert forall c :: !Edge(s.graph, id, c);
  }

  /** After a publication, nothing that is `e` or depends on `e` is reusable exactly when the
      publication was harmless. */
  lemma PublishUnreusableIff(h: Bytes -> Digest, s: State, t: State, req: PublishRequest, d: Descriptor, e: Id)
    requires Rooted(s) && e in s.artifacts && Published(h, s, t, req, d) && d.validation == INTEGRITY_OK
    ensures Unreusable(t, e) <==> Harmless(s, e, d)
  {
    hide Encodable, Stored, ToI64, Link, Valid, Extended, Untainted, Founded, Concerned, EverReusable, ChargedSize;
    NoEdgesOutOf(s, d.id);
    PublishExtends(s.graph, d.id, d.dependencies);
    NotOwnTarget(s.graph, d.id, d.dependencies);
    EntryUnreusableIff(s, t, d, d.dependencies, e);
    FoundedAfter(s.artifacts, t.artifacts, d.id, d);
  }

  /** The same for any fresh artifact that enters and is linked. */
  lemma EntryUnreusableIff(s: State, t: State, d: Descriptor, deps: seq<DependencyRef>, e: Id)
    requires Rooted(s) && e in s.artifacts && d.id !in s.artifacts && t.artifacts == s.artifacts[d.id := d]
    requires Extended(s.graph, t.graph, d.id, deps) && FreshAmong(t.artifacts, d.id)
    ensures Unreusable(t, e) <==>
      && NoneWaits(s, e, d.id, deps)
      && (Untainted(s.graph, deps, e) || !(Standing(d) && Founded(t.artifacts, d, {})))
  {
    hide Extended, Untainted, Founded, Standing, FreshAmong, EverReusable, Rooted, Concerned;
    NoEdgesOutOf(s, d.id);
    forall x ensures EverReusable(t, x) <==> x in t.artifacts && Standing(t.artifacts[x]) && Founded(t.artifacts, t.artifacts[x], {}) {
      EverReusableIff(t, x);
    }
    forall x ensures Concerned(t.graph, e, x) <==>
      Concerned(s.graph, e, x) || (!Untainted(s.graph, deps, e) && (x == d.id || DependsOn(s.graph, x, d.id)))
    {
      ConcernedAfter(s.graph, t.graph, d.id, deps, e, x);
    }
    forall y | y in s.artifacts ensures Founded(t.artifacts, s.artifacts[y], {}) <==> Founded(s.artifacts, s.artifacts[y], {d.id}) {
      FoundedAfter(s.artifacts, t.artifacts, d.id, s.artifacts[y]);
    }
    NotConcerned(s, e, d.id);
  }

  lemma NotConcerned(s: State, e: Id, id: Id)
    requires Rooted(s) && e in s.artifacts && id !in s.artifacts
    ensures !Concerned(s.graph, e, id)
  {
    NoEdgesOutOf(s, id);
  }

  /** When everything concerned is dead, only the publication itself counts, and artifacts that
      named its identifier before it was published. */
  lemma PoisonedUnreusableIff(h: Bytes -> Digest, s: State, t: State, req: PublishRequest, d: Descriptor, e: Id)
    requires Rooted(s) && Poisoned(s, e) && Published(h, s, t, req, d) && d.validation == INTEGRITY_OK
    ensures Unreusable(t, e) <==>
      || Untainted(s.graph, d.dependencies, e)
      || (&& !Founded(s.artifacts, d, {})
          && forall y :: y in s.artifacts && DependsOn(s.graph, y, d.id) ==>
               !(Standing(s.artifacts[y]) && Founded(s.artifacts, s.artifacts[y], {d.id})))
    ensures d.id !in s.graph.nodes ==>
      (Unreusable(t, e) <==> Untainted(s.graph, d.dependencies, e) || !Founded(s.artifacts, d, {}))
  {
    hide Encodable, Stored, ToI64, Link, Untainted, Founded, ChargedSize, DependsOn, Rooted;
    PublishUnreusableIff(h, s, t, req, d, e);
    forall y | y in s.artifacts && Concerned(s.graph, e, y) ensures !Standing(s.artifacts[y]) {
      assert DeadIn(s, y);
    }
    if d.id !in s.graph.nodes { NoDependents(s.graph, d.id); }
  }

  lemma NoDependents(g: Graph, id: Id)
    requires Valid(g) && id !in g.nodes
    ensures forall y :: !DependsOn(g, y, id)
  {
    forall y ensures !DependsOn(g, y, id) {
      if DependsOn(g, y, id) { DependsOnNode(g, y, id); }
    }
  }

  /** A registered artifact is never reusable itself, but others may have waited for it. */
  lemma RegisterUnreusableIff(s: State, desc: Descriptor, e: Id)
    requires Rooted(s) && e in s.artifacts && RegisterLocked(s, desc).0.Returned?
    ensures Unreusable(RegisterLocked(s, desc).1, e) <==> NoneWaits(s, e, desc.id, [])
  {
    hide Founded, Rooted, Concerned, NoneWaits, Unreusable;
    var d := desc.(lifecycle := DECLARED, validation := UNVALIDATED);
    var t := RegisterLocked(s, desc).1;
    assert Targets([]) == [];
    assert Extended(s.graph, t.graph, d.id, []);
    EntryUnreusableIff(s, t, d, [], e);
  }

  // ---- every other call -----------------------------------------------------------------

  /** `t` has the same artifacts as `s`, each at most as reusable. */
  ghost predicate NoBetter(m: map<Id, Descriptor>, n: map<Id, Descriptor>) {
    n.Keys == m.Keys && forall id :: id in m ==> NoBetterOne(m[id], n[id])
  }

  ghost predicate NoBetterOne(d: Descriptor, e: Descriptor) {
    && SameArtifact(d, e)
    && (Standing(e) ==> Standing(d)) && (Dead(d.lifecycle) ==> Dead(e.lifecycle))
  }

  lemma NoBetterFounded(m: map<Id, Descriptor>, n: map<Id, Descriptor>, id: Id)
    requires NoBetter(m, n) && id in m && Founded(n, n[id], {})
    ensures Founded(m, m[id], {})
  {
    hide Standing;
    assert NoBetterOne(m[id], n[id]);
    forall dep | dep in Targets(m[id].dependencies) ensures FreshAmong(m, dep) {
      assert FreshAmong(n, dep) && NoBetterOne(m[dep], n[dep]);
    }
  }

  lemma NoBetterUnreusable(s: State, t: State, e: Id)
    requires NoBetter(s.artifacts, t.artifacts) && t.graph == s.graph && Unreusable(s, e)
    ensures Unreusable(t, e)
  {
    hide Standing, Founded, Concerned, EverReusable, SameArtifact;
    forall x | Concerned(t.graph, e, x) ensures !EverReusable(t, x) {
      EverReusableIff(s, x);
      EverReusableIff(t, x);
      if EverReusable(t, x) {
        assert NoBetterOne(s.artifacts[x], t.artifacts[x]);
        NoBetterFounded(s.artifacts, t.artifacts, x);
      }
    }
  }

  lemma RelabelledNoBetter(d: Descriptor, e: Descriptor)
    requires RelabelledOne(d, e) && Settling(d.lifecycle) && Settling(e.lifecycle)
    ensures NoBetterOne(d, e)
  {
    hide SameArtifact;
    if Dead(d.lifecycle) { DeadStaysDead(d.lifecycle, e.lifecycle); }
  }

  lemma RelabelNoBetter(s: State, t: State)
    requires Relabelled(s, t) && AllSettling(s.artifacts) && AllSettling(t.artifacts)
    ensures NoBetter(s.artifacts, t.artifacts)
  {
    hide RelabelledOne, Settling, NoBetterOne;
    forall id | id in s.artifacts ensures NoBetterOne(s.artifacts[id], t.artifacts[id]) {
      SettlingAt(s.artifacts, id);
      SettlingAt(t.artifacts, id);
      RelabelledNoBetter(s.artifacts[id], t.artifacts[id]);
    }
  }

  lemma RetireNoBetter(s: State, t: State, id: Id)
    requires RetiredOne(s, t, id)
    ensures NoBetter(s.artifacts, t.artifacts)
  {
    hide CanTransition, Released, Down, ToI64;
  }

  // ---- one call of a run ----------------------------------------------------------------

  /** The call makes nothing reusable that is `e` or depends on `e`. */
  ghost predicate HarmlessCall(h: Bytes -> Digest, s: State, c: Call, e: Id) {
    if c.Publish? then
      TextFits(c.request.descriptor) ==> Harmless(s, e, Completed(h, s.nextGeneration, c.request))
    else c.Register? ==> NoneWaits(s, e, c.desc.id, [])
  }

  /** What a returning publication entered, beside what was asked for. */
  lemma PublishedAs(h: Bytes -> Digest, s: State, req: PublishRequest) returns (d: Descriptor)
    requires WellFormed(s) && Do(h, s, Publish(req)).0.Returned?
    ensures Published(h, s, Do(h, s, Publish(req)).1, req, d) && d.validation == INTEGRITY_OK
    ensures TextFits(req.descriptor)
    ensures var c := Completed(h, s.nextGeneration, req);
      d.id == c.id && d.dependencies == c.dependencies && d.provenance == c.provenance && d.placements == c.placements
  {
    hide WellFormed, PublishLocked, Completed, Admissible, Chargeable, Countable, Encodable, Published;
    PublishReturnsIff(h, s, req);
    LimitsText(req.descriptor);
    CompletedFields(h, s.nextGeneration, req);
    var c := Completed(h, s.nextGeneration, req);
    LockedReturnsIff(h, s, req, c);
    PublishEffect(h, s, req, c);
    PublishIs(h, s, req);
    d := Do(h, s, Publish(req)).1.artifacts[c.id];
  }

  lemma PublishIs(h: Bytes -> Digest, s: State, req: PublishRequest)
    requires WellFormed(s) && Do(h, s, Publish(req)).0.Returned? && TextFits(req.descriptor)
    ensures Do(h, s, Publish(req)) == PublishLocked(h, s, req, Completed(h, s.nextGeneration, req))
  {
    hide WellFormed, PublishLocked, DeriveId;
    CompletedFields(h, s.nextGeneration, req);
  }

  lemma SameHarm(s: State, e: Id, c: Descriptor, d: Descriptor)
    requires d.id == c.id && d.dependencies == c.dependencies && d.provenance == c.provenance && d.placements == c.placements
    ensures Harmless(s, e, d) <==> Harmless(s, e, c)
  {
    hide NoneWaits, Untainted, FreshAmong;
  }

  /** A call that enters an artifact leaves everything unreusable exactly when it is harmless;
      the others always do. */
  lemma CallUnreusableIff(h: Bytes -> Digest, s: State, c: Call, e: Id)
    requires WellFormed(s) && Rooted(s) && AllSettling(s.artifacts) && e in s.artifacts && Do(h, s, c).0.Returned?
    ensures c.Publish? || c.Register? ==> (Unreusable(Do(h, s, c).1, e) <==> HarmlessCall(h, s, c, e))
    ensures !c.Publish? && !c.Register? && Unreusable(s, e) ==> Unreusable(Do(h, s, c).1, e)
    ensures e in Do(h, s, c).1.artifacts
  {
    hide WellFormed, Unreusable, Rooted, AllSettling, NoneWaits, Harmless, Completed, Relabelled, RetiredOne, Published, Do;
    var t := Do(h, s, c).1;
    if c.Publish? {
      var d := PublishedAs(h, s, c.request);
      PublishUnreusableIff(h, s, t, c.request, d, e);
      SameHarm(s, e, Completed(h, s.nextGeneration, c.request), d);
      StaysIn(h, s, t, c.request, d, e);
    } else if c.Register? {
      RegisterIs(h, s, c);
      RegisterUnreusableIff(s, c.desc, e);
    } else {
      Effects(h, s, c);
      ReturnKeepsSettling(h, s, c);
      if Relabelled(s, t) {
        RelabelNoBetter(s, t);
        RelabelledGraph(s, t);
      } else {
        RetireNoBetter(s, t, c.id);
        RetiredGraph(s, t, c.id);
      }
      if Unreusable(s, e) { NoBetterUnreusable(s, t, e); }
    }
  }

  lemma StaysIn(h: Bytes -> Digest, s: State, t: State, req: PublishRequest, d: Descriptor, e: Id)
    requires Published(h, s, t, req, d) && e in s.artifacts
    ensures e in t.artifacts
  {
    hide Encodable, Stored, ToI64, Link, Valid;
  }

  lemma RegisterIs(h: Bytes -> Digest, s: State, c: Call)
    requires WellFormed(s) && c.Register? && Do(h, s, c).0.Returned?
    ensures Do(h, s, c) == RegisterLocked(s, c.desc) && forall e :: e in s.artifacts ==> e in Do(h, s, c).1.artifacts
  {
    hide WellFormed;
  }

  lemma PoisonedUnreusable(s: State, e: Id)
    requires Poisoned(s, e)
    ensures Unreusable(s, e) && e in s.artifacts
  {
    hide Founded, EverReusable, DependsOn;
    forall x | Concerned(s.graph, e, x) ensures !EverReusable(s, x) {
      EverReusableIff(s, x);
      assert DeadIn(s, x);
    }
  }

  // ---- whole runs -----------------------------------------------------------------------

  ghost predicate HarmlessAt(h: Bytes -> Digest, calls: seq<Call>, j: nat, e: Id)
    requires j < |calls|
  {
    HarmlessCall(h, After(h, calls[..j]), calls[j], e)
  }

  lemma {:induction false} CataloguedAfter(h: Bytes -> Digest, calls: seq<Call>, i: nat, k: nat)
    requires AllReturn(h, calls) && i < k <= |calls| && calls[i].Invalidate?
    ensures calls[i].id in After(h, calls[..k]).artifacts
    decreases k
  {
    hide Do, Rooted, After, AllReturn, AllSettling, WellFormed, Unreusable, Poisoned;
    var e := calls[i].id;
    PrefixReturns(h, calls, k - 1);
    var s := After(h, calls[..k - 1]);
    RunRooted(h, calls[..k - 1]);
    RunKeepsSettling(h, calls[..k - 1]);
    if k == i + 1 {
      InvalidateCall(h, s, calls[i]);
      PoisonedUnreusable(After(h, calls[..k]), e);
    } else {
      CataloguedAfter(h, calls, i, k - 1);
      CallUnreusableIff(h, s, calls[k - 1], e);
    }
  }

  /** One step of a run after the invalidation. */
  lemma StepUnreusable(h: Bytes -> Digest, calls: seq<Call>, i: nat, j: nat)
    requires AllReturn(h, calls) && i < j < |calls| && calls[i].Invalidate?
    ensures var e := calls[i].id;
      && (Unreusable(After(h, calls[..j]), e) && HarmlessAt(h, calls, j, e) ==> Unreusable(After(h, calls[..j + 1]), e))
      && (Unreusable(After(h, calls[..j + 1]), e) ==> HarmlessAt(h, calls, j, e))
  {
    hide Do, Rooted, After, AllReturn, AllSettling, WellFormed, Unreusable, Harmless, NoneWaits, Completed;
    PrefixReturns(h, calls, j);
    RunRooted(h, calls[..j]);
    RunKeepsSettling(h, calls[..j]);
    CataloguedAfter(h, calls, i, j);
    CallUnreusableIff(h, After(h, calls[..j]), calls[j], calls[i].id);
  }

  lemma {:induction false} RunUnreusable(h: Bytes -> Digest, calls: seq<Call>, i: nat, k: nat)
    requires AllReturn(h, calls) && i < k <= |calls| && calls[i].Invalidate?
    requires forall j :: i < j < |calls| ==> HarmlessAt(h, calls, j, calls[i].id)
    ensures Unreusable(After(h, calls[..k]), calls[i].id)
    decreases k
  {
    hide Do, Rooted, After, AllReturn, WellFormed, Unreusable, HarmlessAt, Poisoned;
    if k == i + 1 {
      PrefixReturns(h, calls, i);
      RunRooted(h, calls[..i]);
      InvalidateCall(h, After(h, calls[..i]), calls[i]);
      PoisonedUnreusable(After(h, calls[..k]), calls[i].id);
    } else {
      RunUnreusable(h, calls, i, k - 1);
      StepUnreusable(h, calls, i, k - 1);
    }
  }

  /** In a run of calls that all returned: neither `e` nor anything that depends on it is ever
      reported reusable after `invalidate(e)`, under any requirement, exactly when every later
      publication and registration is harmless: it names nothing that is `e` or depends on `e`,
      or is unfounded itself; and no artifact that depends on `e`, then or thereby, waits for
      it alone. */
  lemma NeverReusableIff(h: Bytes -> Digest, calls: seq<Call>, i: nat)
    requires AllReturn(h, calls) && i < |calls| && calls[i].Invalidate?
    ensures (forall k :: i < k <= |calls| ==> Unreusable(After(h, calls[..k]), calls[i].id)) <==>
            (forall j :: i < j < |calls| ==> HarmlessAt(h, calls, j, calls[i].id))
  {
    hide Do, After, AllReturn, WellFormed, Unreusable, HarmlessAt;
    var e := calls[i].id;
    if forall j :: i < j < |calls| ==> HarmlessAt(h, calls, j, e) {
      forall k | i < k <= |calls| ensures Unreusable(After(h, calls[..k]), e) { RunUnreusable(h, calls, i, k); }
    }
    if forall k :: i < k <= |calls| ==> Unreusable(After(h, calls[..k]), e) {
      forall j | i < j < |calls| ensures HarmlessAt(h, calls, j, e) {
        assert Unreusable(After(h, calls[..j + 1]), e);
        StepUnreusable(h, calls, i, j);
      }
    }
  }
}
