/** Once invalidated, never reusable again: safety over whole runs. */
module Safety {
  import opened Types
  import opened Lifecycle
  import opened GraphModel
  import opened CatalogModel
  import opened CatalogEffects
  import opened CatalogRuns
  import opened Invalidation
  import opened Compatibility
  import opened Reuse

  /** The states no call leads out of, once reached through an invalidation. */
  predicate Dead(l: LifecycleState) {
    l == INVALIDATED || l == QUARANTINED || l == RETIRED || l == EVICTED
  }

  /** Whatever depends on something is catalogued. */
  ghost predicate Rooted(s: State) {
    forall a :: Direct(s.graph, a) != [] ==> a in s.artifacts
  }

  ghost predicate DeadIn(s: State, x: Id) {
    x in s.artifacts && Dead(s.artifacts[x].lifecycle)
  }

  /** `e` and everything that depends on it is dead. */
  ghost predicate Poisoned(s: State, e: Id) {
    DeadIn(s, e) && forall x :: DependsOn(s.graph, x, e) ==> DeadIn(s, x)
  }

  lemma DeadStaysDead(from: LifecycleState, to: LifecycleState)
    requires Dead(from) && Moved(from, to)
    ensures Dead(to)
  {
  }

  // ---- a publication keeps the poison in exactly when it names nothing poisoned ----------

  /** None of `deps` is `e` or depends on it. */
  ghost predicate Untainted(g: Graph, deps: seq<DependencyRef>, e: Id) {
    forall dep :: dep in Targets(deps) ==> dep != e && !DependsOn(g, dep, e)
  }

  /** `k` is `g` with the edges from `id` to `deps` in addition. */
  ghost predicate Extended(g: Graph, k: Graph, id: Id, deps: seq<DependencyRef>) {
    forall a, b :: Edge(k, a, b) <==> Edge(g, a, b) || (a == id && b in Targets(deps))
  }

  lemma {:induction false} NoNewWays(g: Graph, k: Graph, id: Id, deps: seq<DependencyRef>, e: Id, p: seq<Id>)
    requires Extended(g, k, id, deps) && Untainted(g, deps, e) && IsPath(k, p) && p[|p| - 1] == e
    ensures Reaches(g, p[0], e)
  {
    if |p| == 1 {
      ReachesSelf(g, e);
    } else {
      var q := p[1..];
      forall i | 0 <= i < |q| - 1 ensures Edge(k, q[i], q[i + 1]) { assert q[i] == p[i + 1] && q[i + 1] == p[i + 2]; }
      NoNewWays(g, k, id, deps, e, q);
      assert Edge(k, p[0], p[0 + 1]);
      if p[1] in Targets(deps) { ReachesSplit(g, p[1], e); }
      EdgeThenReaches(g, p[0], p[1], e);
    }
  }

  lemma NoNewDependents(g: Graph, k: Graph, id: Id, deps: seq<DependencyRef>, e: Id, x: Id)
    requires Extended(g, k, id, deps) && Untainted(g, deps, e) && DependsOn(k, x, e)
    ensures DependsOn(g, x, e)
  {
    var c :| Through(k, x, c, e);
    var p :| Joins(k, p, c, e);
    NoNewWays(g, k, id, deps, e, p);
    if c in Targets(deps) { ReachesSplit(g, c, e); }
    assert Through(g, x, c, e);
  }

  lemma NewDependent(g: Graph, k: Graph, id: Id, deps: seq<DependencyRef>, e: Id)
    requires Extended(g, k, id, deps) && !Untainted(g, deps, e)
    ensures DependsOn(k, id, e)
  {
    var dep :| dep in Targets(deps) && !(dep != e && !DependsOn(g, dep, e));
    if dep == e { ReachesSelf(g, e); } else { DependsReaches(g, dep, e); }
    var p :| Joins(g, p, dep, e);
    assert Joins(k, p, dep, e);
    assert Through(k, id, dep, e);
  }

  lemma PublishExtends(g: Graph, id: Id, deps: seq<DependencyRef>)
    requires Valid(g) && Direct(g, id) == [] && Link(g, id, deps).0.Returned?
    ensures Extended(g, Link(g, id, deps).1, id, deps)
  {
    hide Link, Valid;
    LinkEffect(g, id, deps);
  }

  /** After a publication, `e` and everything that depends on it is still dead exactly when none
      of the dependencies it names is `e` or depends on `e`. */
  lemma PublishKeepsPoisonIff(h: Bytes -> Digest, s: State, t: State, req: PublishRequest, d: Descriptor, e: Id)
    requires Rooted(s) && Poisoned(s, e) && Published(h, s, t, req, d)
    ensures Poisoned(t, e) <==> Untainted(s.graph, req.descriptor.dependencies, e)
  {
    hide DescriptorFormat.Encodable, Stored, ToI64, Link, Valid, Extended, Untainted, Edge;
    PublishExtends(s.graph, d.id, d.dependencies);
    if Untainted(s.graph, d.dependencies, e) {
      forall x | DependsOn(t.graph, x, e) ensures DeadIn(t, x) {
        NoNewDependents(s.graph, t.graph, d.id, d.dependencies, e, x);
        assert DeadIn(s, x);
      }
    } else {
      NewDependent(s.graph, t.graph, d.id, d.dependencies, e);
      assert !DeadIn(t, d.id);
    }
  }

  lemma RelabelKeepsPoison(s: State, t: State, e: Id)
    requires Poisoned(s, e) && Relabelled(s, t)
    ensures Poisoned(t, e)
  {
    hide SameArtifact, Moved;
    forall x | DeadIn(s, x) ensures DeadIn(t, x) {
      assert RelabelledOne(s.artifacts[x], t.artifacts[x]);
      DeadStaysDead(s.artifacts[x].lifecycle, t.artifacts[x].lifecycle);
    }
  }

  lemma RetireKeepsPoison(s: State, t: State, id: Id, e: Id)
    requires Poisoned(s, e) && RetiredOne(s, t, id)
    ensures Poisoned(t, e)
  {
    hide CanTransition, Released, Down, ToI64;
    forall x | DeadIn(s, x) ensures DeadIn(t, x) {
    }
  }

  lemma RegisterKeepsPoison(s: State, desc: Descriptor, e: Id)
    requires Poisoned(s, e) && RegisterLocked(s, desc).0.Returned?
    ensures Poisoned(RegisterLocked(s, desc).1, e)
  {
    var t := RegisterLocked(s, desc).1;
    forall x | DeadIn(s, x) ensures DeadIn(t, x) {
    }
  }

  /** One call that returned, publications naming something poisoned excepted. */
  lemma ReturnKeepsPoison(h: Bytes -> Digest, s: State, c: Call, e: Id)
    requires WellFormed(s) && Rooted(s) && Poisoned(s, e) && Do(h, s, c).0.Returned?
    ensures Poisoned(Do(h, s, c).1, e) <==> (c.Publish? ==> Untainted(s.graph, c.request.descriptor.dependencies, e))
  {
    if c.Register? {
      RegisterKeepsPoison(s, c.desc, e);
    } else {
      hide WellFormed, Do, Relabelled, Published, RetiredOne, Poisoned, Rooted, Untainted;
      var t := Do(h, s, c).1;
      Effects(h, s, c);
      if c.Publish? {
        PublishNotRelabelled(h, s, c);
        var d :| Published(h, s, t, c.request, d);
        PublishKeepsPoisonIff(h, s, t, c.request, d, e);
      } else if Relabelled(s, t) {
        RelabelKeepsPoison(s, t, e);
      } else {
        RetireKeepsPoison(s, t, c.id, e);
      }
    }
  }

  /** A publication that returns adds an artifact. */
  lemma PublishNotRelabelled(h: Bytes -> Digest, s: State, c: Call)
    requires WellFormed(s) && c.Publish? && Do(h, s, c).0.Returned?
    ensures exists d :: Published(h, s, Do(h, s, c).1, c.request, d)
  {
    hide WellFormed, Complete, PublishLocked, Published;
    var d := Complete(h, s.nextGeneration, c.request).value;
    CompleteFields(h, s.nextGeneration, c.request);
    PublishEffect(h, s, c.request, d);
  }

  lemma ReturnKeepsRooted(h: Bytes -> Digest, s: State, c: Call)
    requires WellFormed(s) && Rooted(s) && Do(h, s, c).0.Returned?
    ensures Rooted(Do(h, s, c).1)
  {
    var t := Do(h, s, c).1;
    if c.Register? {
      hide WellFormed;
    } else {
      hide WellFormed, Do, Relabelled, Published, RetiredOne, Rooted;
      Effects(h, s, c);
      if c.Publish? {
        PublishNotRelabelled(h, s, c);
        var d :| Published(h, s, t, c.request, d);
        PublishRooted(h, s, t, c.request, d);
      } else if Relabelled(s, t) {
        RelabelRooted(s, t);
      } else {
        RetireRooted(s, t, c.id);
      }
    }
  }

  lemma RelabelRooted(s: State, t: State)
    requires Rooted(s) && Relabelled(s, t)
    ensures Rooted(t)
  {
    hide RelabelledOne;
  }

  lemma RetireRooted(s: State, t: State, id: Id)
    requires Rooted(s) && RetiredOne(s, t, id)
    ensures Rooted(t)
  {
    hide CanTransition, Released, Down, ToI64;
  }

  lemma PublishRooted(h: Bytes -> Digest, s: State, t: State, req: PublishRequest, d: Descriptor)
    requires Rooted(s) && Published(h, s, t, req, d)
    ensures Rooted(t)
  {
    hide DescriptorFormat.Encodable, Stored, ToI64, Link, Valid;
    LinkEffect(s.graph, d.id, d.dependencies);
  }

  /** When `invalidate(e)` returns, `e` and everything that depends on it is dead. */
  lemma InvalidatePoisons(s: State, e: Id, cause: Bytes, a: Authority)
    requires WellFormed(s) && Rooted(s) && InvalidateLocked(s, e, cause, a).0.Returned?
    ensures Poisoned(InvalidateLocked(s, e, cause, a).1, e)
  {
    hide WellFormed, InvalidateFrom, Hit, MarkAll, Rooted, DeadIn;
    InvalidationIsExact(s, e, cause, a);
    var t := InvalidateLocked(s, e, cause, a).1;
    MarkedGraph(s, Hit(s, e), cause);
    MarkedDead(s, e, cause, e);
    forall x | DependsOn(t.graph, x, e) ensures DeadIn(t, x) {
      DependentCatalogued(s, x, e);
      MarkedDead(s, e, cause, x);
    }
  }

  lemma MarkedDead(s: State, e: Id, cause: Bytes, x: Id)
    requires x in s.artifacts && (x == e || x in Dependents(s.graph, e))
    ensures DeadIn(MarkAll(s, Hit(s, e), cause), x)
  {
    assert x in Hit(s, e) || Settled(s.artifacts[x].lifecycle);
    hide Hit, Dependents;
  }

  lemma DependentCatalogued(s: State, x: Id, e: Id)
    requires WellFormed(s) && Rooted(s) && DependsOn(s.graph, x, e)
    ensures x in s.artifacts && x in Dependents(s.graph, e)
  {
    DependsOnNode(s.graph, x, e);
    var c :| Through(s.graph, x, c, e);
    assert Edge(s.graph, x, c);
  }

  lemma {:induction false} RunRooted(h: Bytes -> Digest, calls: seq<Call>)
    requires AllReturn(h, calls)
    ensures Rooted(After(h, calls))
  {
    if calls != [] {
      hide Do, Rooted;
      RunRooted(h, calls[..|calls| - 1]);
      ReturnKeepsRooted(h, After(h, calls[..|calls| - 1]), calls[|calls| - 1]);
    }
  }

  lemma InvalidateCall(h: Bytes -> Digest, s: State, c: Call)
    requires WellFormed(s) && Rooted(s) && c.Invalidate? && Do(h, s, c).0.Returned?
    ensures Poisoned(Do(h, s, c).1, c.id)
  {
    hide WellFormed, Rooted, Poisoned, InvalidateLocked;
    InvalidatePoisons(s, c.id, c.cause, c.authority);
  }

  // ---- whole runs -----------------------------------------------------------------------

  /** No publication after call `i` names the artifact that call `i` invalidates, or anything
      that depends on it at the time. */
  ghost predicate UntaintedSince(h: Bytes -> Digest, calls: seq<Call>, i: nat)
    requires i < |calls| && calls[i].Invalidate?
  {
    forall j :: i < j < |calls| && calls[j].Publish? ==> UntaintedAt(h, calls, j, calls[i].id)
  }

  ghost predicate UntaintedAt(h: Bytes -> Digest, calls: seq<Call>, j: nat, e: Id)
    requires j < |calls| && calls[j].Publish?
  {
    Untainted(After(h, calls[..j]).graph, calls[j].request.descriptor.dependencies, e)
  }

  lemma UntaintedPrefix(h: Bytes -> Digest, calls: seq<Call>, i: nat, k: nat)
    requires i < k <= |calls| && calls[i].Invalidate? && UntaintedSince(h, calls, i)
    ensures UntaintedSince(h, calls[..k], i)
  {
    hide After, Untainted;
    forall j | i < j < k && calls[j].Publish? ensures UntaintedAt(h, calls[..k], j, calls[i].id) {
      assert calls[..k][..j] == calls[..j];
      assert UntaintedAt(h, calls, j, calls[i].id);
    }
  }

  lemma {:induction false} RunPoisoned(h: Bytes -> Digest, calls: seq<Call>, i: nat)
    requires AllReturn(h, calls) && i < |calls| && calls[i].Invalidate? && UntaintedSince(h, calls, i)
    ensures Poisoned(After(h, calls), calls[i].id)
  {
    hide Do, Rooted, Poisoned, Untainted, UntaintedSince;
    var init, c := calls[..|calls| - 1], calls[|calls| - 1];
    var s := After(h, init);
    RunRooted(h, init);
    if i == |calls| - 1 {
      InvalidateCall(h, s, c);
    } else {
      UntaintedPrefix(h, calls, i, |calls| - 1);
      RunPoisoned(h, init, i);
      ReturnKeepsPoison(h, s, c, calls[i].id);
      if c.Publish? { LastUntainted(h, calls, i); }
    }
  }

  lemma LastUntainted(h: Bytes -> Digest, calls: seq<Call>, i: nat)
    requires i < |calls| - 1 && calls[i].Invalidate? && UntaintedSince(h, calls, i) && calls[|calls| - 1].Publish?
    ensures UntaintedAt(h, calls, |calls| - 1, calls[i].id)
  {
  }

  lemma {:induction false} PrefixReturns(h: Bytes -> Digest, calls: seq<Call>, k: nat)
    requires AllReturn(h, calls) && k <= |calls|
    ensures AllReturn(h, calls[..k])
    ensures k < |calls| ==> Do(h, After(h, calls[..k]), calls[k]).0.Returned?
    ensures k < |calls| ==> After(h, calls[..k + 1]) == Do(h, After(h, calls[..k]), calls[k]).1
  {
    hide Do;
    if k == |calls| {
      assert calls[..k] == calls;
    } else {
      var init := calls[..|calls| - 1];
      if k == |init| {
        assert calls[..k + 1] == calls;
      } else {
        PrefixReturns(h, init, k);
        assert init[..k] == calls[..k] && init[..k + 1] == calls[..k + 1];
      }
    }
  }

  /** In a run of calls that all returned: `e` and everything that depends on it stays dead
      from its invalidation on exactly when no later publication names `e` or anything that
      depends on `e`. */
  lemma StaysPoisonedIff(h: Bytes -> Digest, calls: seq<Call>, i: nat)
    requires AllReturn(h, calls) && i < |calls| && calls[i].Invalidate?
    ensures (forall k :: i < k <= |calls| ==> Poisoned(After(h, calls[..k]), calls[i].id)) <==> UntaintedSince(h, calls, i)
  {
    hide Do, After, AllReturn, WellFormed, Rooted, Poisoned, Untainted;
    var e := calls[i].id;
    if UntaintedSince(h, calls, i) {
      forall k | i < k <= |calls| ensures Poisoned(After(h, calls[..k]), e) {
        PrefixReturns(h, calls, k);
        UntaintedPrefix(h, calls, i, k);
        RunPoisoned(h, calls[..k], i);
      }
    }
    if forall k :: i < k <= |calls| ==> Poisoned(After(h, calls[..k]), e) {
      forall j | i < j < |calls| && calls[j].Publish? ensures UntaintedAt(h, calls, j, e) {
        PrefixReturns(h, calls, j);
        RunRooted(h, calls[..j]);
        assert Poisoned(After(h, calls[..j]), e) && Poisoned(After(h, calls[..j + 1]), e);
        ReturnKeepsPoison(h, After(h, calls[..j]), calls[j], e);
      }
    }
  }

  /** In a run of calls that all returned, in which no publication after `invalidate(e)` names
      `e` or anything that depends on it: neither `e` nor anything that depends on it, directly
      or not, is ever reported reusable again, under any requirement. */
  lemma InvalidatedStaysUnusable(h: Bytes -> Digest, calls: seq<Call>, i: nat, x: Id, r: Requirement)
    requires AllReturn(h, calls) && i < |calls| && calls[i].Invalidate? && UntaintedSince(h, calls, i)
    requires x == calls[i].id || DependsOn(After(h, calls).graph, x, calls[i].id)
    ensures !ReusableIn(After(h, calls), x, r)
  {
    hide After, AllReturn, UntaintedSince, WellFormed;
    var s := After(h, calls);
    RunPoisoned(h, calls, i);
    assert DeadIn(s, x);
    NotReusable(s, x, r);
  }

  // ---- publications that name only sound dependencies -----------------------------------

  /** Every publication names only dependencies that are catalogued and not INVALIDATED,
      RETIRED, EVICTED or QUARANTINED when it is made. */
  ghost predicate Careful(h: Bytes -> Digest, calls: seq<Call>) {
    calls == []
    || (Careful(h, calls[..|calls| - 1]) && CarefulCall(After(h, calls[..|calls| - 1]), calls[|calls| - 1]))
  }

  ghost predicate CarefulCall(s: State, c: Call) {
    c.Publish? ==> forall dep :: dep in Targets(c.request.descriptor.dependencies) ==> FreshIn(s, dep)
  }

  lemma SoundIsUntainted(s: State, c: Call, e: Id)
    requires Poisoned(s, e) && CarefulCall(s, c) && c.Publish?
    ensures Untainted(s.graph, c.request.descriptor.dependencies, e)
  {
    forall dep | dep in Targets(c.request.descriptor.dependencies) ensures dep != e && !DependsOn(s.graph, dep, e) {
      assert FreshIn(s, dep) && !DeadIn(s, dep);
    }
  }

  /** Careful publications name nothing that is invalidated, however far away. */
  lemma {:induction false} CarefulIsUntainted(h: Bytes -> Digest, calls: seq<Call>, i: nat)
    requires AllReturn(h, calls) && Careful(h, calls) && i < |calls| && calls[i].Invalidate?
    ensures UntaintedSince(h, calls, i)
  {
    hide Do, CarefulCall, Untainted, WellFormed;
    var init, c := calls[..|calls| - 1], calls[|calls| - 1];
    if i < |init| {
      CarefulIsUntainted(h, init, i);
      if c.Publish? {
        RunPoisoned(h, init, i);
        SoundIsUntainted(After(h, init), c, calls[i].id);
      }
      forall j | i < j < |calls| && calls[j].Publish? ensures UntaintedAt(h, calls, j, calls[i].id) {
        if j < |init| {
          assert UntaintedAt(h, init, j, init[i].id);
          assert init[..j] == calls[..j];
        }
      }
    }
  }
}
