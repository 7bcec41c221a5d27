/** Counters never go negative: where that holds, and exactly when it does not. */
module CounterGuards {
  import opened Types
  import opened Lifecycle
  import opened Accounting
  import opened GraphModel
  import opened CatalogModel
  import opened Invalidation
  import opened CatalogEffects
  import opened CatalogRuns

  // ---- one call -------------------------------------------------------------------------

  /** No guarded counter becomes negative, and the two unguarded ones are not lowered. */
  predicate NotLower(c: Counters, e: Counters) {
    && (NonNegative(c) ==> NonNegative(e))
    && e.logicalArtifacts >= c.logicalArtifacts && e.physicalBacking >= c.physicalBacking
  }

  lemma KeepNotLower(s: State, cd: Digest, content: Bytes, size: int)
    ensures NotLower(s.counters, Keep(s, cd, content, size).1.counters)
  {
    hide Up;
  }

  lemma ChargeNotLower(s: State, d: Descriptor)
    ensures NotLower(s.counters, Charge(s, d).1.counters)
  {
    hide ToI64;
  }

  lemma EnterNotLower(h: Bytes -> Digest, s: State, d: Descriptor)
    requires WellFormed(s)
    ensures NotLower(s.counters, Enter(h, s, d).1.counters)
  {
    hide WellFormed, Link, Sign, Unsigned, Charge, NotLower;
    GraphOf(s);
    var s1 := s.(artifacts := s.artifacts[d.id := d]);
    var (linked, g) := Link(s1.graph, d.id, d.dependencies);
    SameNotLower(s.counters);
    if Sign(h, g, d).Returned? {
      var e := Sign(h, g, d).value;
      ChargeNotLower(s1.(graph := g, artifacts := s1.artifacts[d.id := e]), e);
    }
  }

  lemma SameNotLower(c: Counters)
    ensures NotLower(c, c)
  {
  }

  lemma NotLowerTwice(a: Counters, b: Counters, c: Counters)
    requires NotLower(a, b) && NotLower(b, c)
    ensures NotLower(a, c)
  {
  }

  lemma PublishNotLower(h: Bytes -> Digest, s: State, req: PublishRequest, d: Descriptor)
    requires WellFormed(s)
    ensures NotLower(s.counters, PublishLocked(h, s, req, d).1.counters)
  {
    hide WellFormed, Keep, Enter, NotLower;
    var size := ChargedSize(d, req.content);
    var (kept, s1) := Keep(s, d.contentDigest, req.content, size);
    KeepNotLower(s, d.contentDigest, req.content, size);
    KeepSame(s, d.contentDigest, req.content, size);
    StoreKeeps(s, s1);
    SameNotLower(s.counters);
    EnterNotLower(h, s1, d.(lifecycle := BUILDING));
    NotLowerTwice(s.counters, s1.counters, Enter(h, s1, d.(lifecycle := BUILDING)).1.counters);
  }

  lemma MoveCounters(s: State, id: Id, d: Descriptor, to: LifecycleState)
    requires id in s.artifacts
    ensures Move(s, id, d, to).1.counters == s.counters
  {
    hide CanTransition;
  }

  lemma SupersedeNotLower(s: State, id: Id, successor: Id, a: Authority)
    ensures NotLower(s.counters, SupersedeLocked(s, id, successor, a).1.counters)
  {
    hide CanTransition, Push;
  }

  lemma SetAsideNotLower(s: State, id: Id, record: Quarantine)
    ensures NotLower(s.counters, QuarantineLocked(s, id, record).1.counters)
  {
    hide CanTransition, Push;
  }

  /** Every call but a retirement. */
  lemma LockedNotLower(h: Bytes -> Digest, s: State, c: Call, next: U64)
    requires WellFormed(s) && c.Mutates() && !c.Retire?
    ensures NotLower(s.counters, Locked(h, s, c, next).1.counters)
  {
    hide WellFormed, Complete, PublishLocked, InvalidateLocked, Move, SupersedeLocked, QuarantineLocked, NotLower;
    SameNotLower(s.counters);
    match c
    case Register(desc, a) =>
    case Publish(req) =>
      var d := Complete(h, next, req);
      if d.Returned? { PublishNotLower(h, s, req, d.value); }
    case Validate(id, report, a) =>
      if id in s.artifacts {
        MoveCounters(s, id, s.artifacts[id].(validation := report.state), if report.AllOk() then VALID else FAILED);
      }
    case Promote(id, a) => if id in s.artifacts { MoveCounters(s, id, s.artifacts[id], ACTIVE); }
    case Supersede(id, successor, a) => SupersedeNotLower(s, id, successor, a);
    case Invalidate(id, cause, a) => InvalidateNotLower(s, id, cause, a);
    case SetAside(id, record, a) => SetAsideNotLower(s, id, record);
  }

  lemma InvalidateNotLower(s: State, id: Id, cause: Bytes, a: Authority)
    requires WellFormed(s)
    ensures NotLower(s.counters, InvalidateLocked(s, id, cause, a).1.counters)
  {
    hide WellFormed, InvalidateLocked;
    InvalidateOnlyStates(s, id, cause, a);
  }

  /** The reference given up is the last one to its content. */
  predicate LastReference(s: State, cd: Digest) {
    cd in s.store && Down(s.store[cd].references) == 0
  }

  /** `retire` gets past its checks. */
  predicate Retires(s: State, id: Id, a: Authority) {
    && Fence(s.epoch, s.boot, a).Returned? && id in s.artifacts
    && s.artifacts[id].lifecycle in {DECLARED, VALID, PUBLISHED, ACTIVE, STALE, INVALIDATED, SUPERSEDED, QUARANTINED, EVICTED}
  }

  /** Giving up the reference does not throw. */
  predicate Droppable(s: State, cd: Digest) {
    LastReference(s, cd) ==> s.counters.physicalBytes >= |s.store[cd].bytes|
  }

  lemma DropCounters(s: State, cd: Digest)
    ensures Drop(s, cd).0.Returned? <==> Droppable(s, cd)
    ensures var c := s.counters; var e := Drop(s, cd).1.counters;
      && (NonNegative(c) ==> NonNegative(e)) && e.logicalArtifacts == c.logicalArtifacts
      && e.physicalBacking == c.physicalBacking - (if LastReference(s, cd) then 1 else 0)
  {
    hide Down;
  }

  lemma DischargeCounters(s: State, d: Descriptor)
    ensures var c := s.counters; var e := Discharge(s, d).1.counters;
      && (NonNegative(c) ==> NonNegative(e))
      && e.logicalArtifacts == c.logicalArtifacts - 1 && e.physicalBacking == c.physicalBacking
  {
    hide ToI64;
  }

  lemma RetireCounters(s: State, id: Id)
    requires id in s.artifacts && CanTransition(s.artifacts[id].lifecycle, RETIRED)
    ensures var c := s.counters; var e := RetireLocked(s, id).1.counters; var cd := s.artifacts[id].contentDigest;
      && (NonNegative(c) ==> NonNegative(e))
      && e.logicalArtifacts == c.logicalArtifacts - (if Droppable(s, cd) then 1 else 0)
      && e.physicalBacking == c.physicalBacking - (if LastReference(s, cd) then 1 else 0)
  {
    hide CanTransition, Drop, Discharge, NonNegative, Down;
    var d := s.artifacts[id];
    var s1 := s.(artifacts := s.artifacts[id := d.(lifecycle := RETIRED)], indexed := s.indexed - {id});
    DropCounters(s1, d.contentDigest);
    DischargeCounters(Drop(s1, d.contentDigest).1, d);
  }

  /** No call makes a guarded counter negative, whether it returns or throws. The two counters
      without a guard become negative in exactly these cases: the count of artifacts when it is
      zero and a retirement gets past its checks and its content; the count of contents when it
      is zero and a retirement gives up the last reference to a content. */
  lemma NegativeIff(h: Bytes -> Digest, s: State, c: Call)
    requires WellFormed(s)
    ensures NonNegative(s.counters) ==> NonNegative(Do(h, s, c).1.counters)
    ensures s.counters.logicalArtifacts >= 0 ==>
      (Do(h, s, c).1.counters.logicalArtifacts < 0 <==>
        && s.counters.logicalArtifacts == 0 && c.Retire? && Retires(s, c.id, c.authority)
        && Droppable(s, s.artifacts[c.id].contentDigest))
    ensures s.counters.physicalBacking >= 0 ==>
      (Do(h, s, c).1.counters.physicalBacking < 0 <==>
        && s.counters.physicalBacking == 0 && c.Retire? && Retires(s, c.id, c.authority)
        && LastReference(s, s.artifacts[c.id].contentDigest))
  {
    hide WellFormed, Locked, NonNegative, Droppable, LastReference, CanTransition, RetireLocked;
    SameNotLower(s.counters);
    if c.Retire? {
      RetireIs(h, s, c);
      if c.id in s.artifacts { EnteredFrom(s.artifacts[c.id].lifecycle); }
      if Retires(s, c.id, c.authority) { RetireCounters(s, c.id); }
    } else if c.Mutates() {
      LockedNotLower(h, s, c, s.nextGeneration);
    }
  }

  lemma RetireIs(h: Bytes -> Digest, s: State, c: Call)
    requires WellFormed(s) && c.Retire?
    ensures Do(h, s, c).1.counters == if Retires(s, c.id, c.authority) then RetireLocked(s, c.id).1.counters else s.counters
  {
    hide WellFormed, CanTransition, Drop, Discharge;
    if c.id in s.artifacts { EnteredFrom(s.artifacts[c.id].lifecycle); }
  }

  // ---- whole runs -----------------------------------------------------------------------

  /** Whatever is called, and whatever throws, the guarded counters are never negative. */
  lemma {:induction false} GuardedNeverNegative(h: Bytes -> Digest, calls: seq<Call>)
    ensures NonNegative(After(h, calls).counters)
  {
    if calls != [] {
      hide Do, WellFormed;
      GuardedNeverNegative(h, calls[..|calls| - 1]);
      NegativeIff(h, After(h, calls[..|calls| - 1]), calls[|calls| - 1]);
    }
  }

  ghost predicate InStep(s: State) {
    s.counters.logicalArtifacts == s.counters.activeReferences && s.counters.physicalBacking == |s.store|
  }

  lemma StoredSize(store: map<Digest, Content>, cd: Digest, content: Bytes)
    ensures |Stored(store, cd, content)| == |store| + if cd in store then 0 else 1
  {
    assert Stored(store, cd, content).Keys == store.Keys + {cd};
    if cd in store { assert store.Keys + {cd} == store.Keys; }
  }

  lemma ReleasedSize(store: map<Digest, Content>, cd: Digest)
    ensures |Released(store, cd)| == |store| - if cd in store && Down(store[cd].references) == 0 then 1 else 0
  {
    hide Down;
    if cd in store {
      if Down(store[cd].references) == 0 {
        assert (store - {cd}).Keys == store.Keys - {cd};
      } else {
        assert Released(store, cd).Keys == store.Keys;
      }
    }
  }

  lemma ReturnKeepsInStep(h: Bytes -> Digest, s: State, c: Call)
    requires WellFormed(s) && InStep(s) && Do(h, s, c).0.Returned?
    ensures InStep(Do(h, s, c).1)
  {
    hide WellFormed, RelabelledAll, DescriptorFormat.Encodable, Link, Valid, Stored, Released, CanTransition, ToI64, Down,
      PublishLocked, RetireLocked, InvalidateLocked, SupersedeLocked, QuarantineLocked, ValidateLocked, PromoteLocked, Complete;
    if !c.Register? {
      hide Do;
      var t := Do(h, s, c).1;
      Effects(h, s, c);
      if Relabelled(s, t) {
      } else if c.Publish? {
        var d :| Published(h, s, t, c.request, d);
        StoredSize(s.store, d.contentDigest, c.request.content);
      } else {
        ReleasedSize(s.store, s.artifacts[c.id].contentDigest);
      }
    }
  }

  /** As long as every call returns, the other two are not negative either: artifacts are
      counted like active references, and backing like stored contents. */
  lemma {:induction false} ReturningRunsNeverNegative(h: Bytes -> Digest, calls: seq<Call>)
    requires AllReturn(h, calls)
    ensures var s := After(h, calls);
      s.counters.logicalArtifacts == s.counters.activeReferences >= 0 && s.counters.physicalBacking == |s.store|
  {
    GuardedNeverNegative(h, calls);
    RunKeepsInStep(h, calls);
  }

  lemma {:induction false} RunKeepsInStep(h: Bytes -> Digest, calls: seq<Call>)
    requires AllReturn(h, calls)
    ensures InStep(After(h, calls))
  {
    if calls != [] {
      hide Do, WellFormed, InStep;
      RunKeepsInStep(h, calls[..|calls| - 1]);
      ReturnKeepsInStep(h, After(h, calls[..|calls| - 1]), calls[|calls| - 1]);
    } else {
      assert InStep(NEW_CATALOG);
    }
  }
}
