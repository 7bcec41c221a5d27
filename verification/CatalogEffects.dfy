/** What a call that returns normally does to the catalog, in three kinds: it relabels
    artifacts, publishes one, or retires one. */
module CatalogEffects {
  import opened Types
  import opened Lifecycle
  import opened Accounting
  import opened GraphModel
  import opened DescriptorFormat
  import opened DependencyDigests
  import opened Derivation
  import opened CatalogModel
  import opened Invalidation

  // ---- every call keeps the catalog well formed -----------------------------------------

  lemma MoveKeeps(s: State, id: Id, d: Descriptor, to: LifecycleState)
    requires WellFormed(s) && id in s.artifacts && d.id == id
    ensures WellFormed(Move(s, id, d, to).1)
  {
    hide Valid;
  }

  /** Only the content store and the counters differ. */
  ghost predicate SameCatalog(s: State, t: State) {
    t == s.(store := t.store, counters := t.counters, nextGeneration := t.nextGeneration)
  }

  lemma KeepSame(s: State, cd: Digest, content: Bytes, size: int)
    ensures SameCatalog(s, Keep(s, cd, content, size).1)
  {
  }

  lemma ChargeSame(s: State, d: Descriptor)
    ensures SameCatalog(s, Charge(s, d).1)
  {
    hide ToI64;
  }

  lemma DropSame(s: State, cd: Digest)
    ensures SameCatalog(s, Drop(s, cd).1)
  {
  }

  lemma DischargeSame(s: State, d: Descriptor)
    ensures SameCatalog(s, Discharge(s, d).1)
  {
    hide ToI64;
  }

  lemma RetireKeeps(s: State, id: Id)
    requires WellFormed(s)
    ensures WellFormed(RetireLocked(s, id).1)
  {
    hide WellFormed, Drop, Discharge;
    var t := RetireLocked(s, id).1;
    GraphOf(s);
    if id in s.artifacts {
      IdsMatch(s, id);
      var d := s.artifacts[id];
      if CanTransition(d.lifecycle, RETIRED) {
        var s1 := s.(artifacts := s.artifacts[id := d.(lifecycle := RETIRED)], indexed := s.indexed - {id});
        DropSame(s1, d.contentDigest);
        DischargeSame(Drop(s1, d.contentDigest).1, d);
        AddArtifact(s, t, d.(lifecycle := RETIRED));
      } else {
        assert s.artifacts[id := d] == s.artifacts;
        AddArtifact(s, t, d);
      }
    }
  }

  lemma AddArtifact(s: State, t: State, d: Descriptor)
    requires WellFormed(s) && Valid(t.graph) && t.indexed <= s.indexed + {d.id}
    requires t.artifacts == s.artifacts[d.id := d]
    ensures WellFormed(t)
  {
    hide Valid;
  }

  lemma UnsignedId(h: Bytes -> Digest, g: Graph, d: Descriptor)
    requires Valid(g)
    ensures Unsigned(h, g, d).id == d.id
    ensures Sign(h, g, d).Returned? ==> Sign(h, g, d).value.id == d.id
  {
    hide Refresh, DigestInput;
    RefreshSame(h, Unsigned(h, g, d));
  }

  /** Everything but the two refreshed digests. */
  ghost predicate SameButDigests(d: Descriptor, e: Descriptor) {
    e == d.(metadataDigest := e.metadataDigest, compatibilityDigest := e.compatibilityDigest)
  }

  lemma RefreshSame(h: Bytes -> Digest, d: Descriptor)
    ensures Refresh(h, d).Returned? ==> SameButDigests(d, Refresh(h, d).value) && Encodable(d)
  {
    hide DescriptorF, CompatBytes;
  }

  lemma EnterKeeps(h: Bytes -> Digest, s: State, d: Descriptor)
    requires WellFormed(s)
    ensures WellFormed(Enter(h, s, d).1)
  {
    hide WellFormed, Link, Sign, Unsigned, Charge;
    var t := Enter(h, s, d).1;
    var s1 := s.(artifacts := s.artifacts[d.id := d]);
    GraphOf(s);
    var (linked, g) := Link(s1.graph, d.id, d.dependencies);
    UnsignedId(h, g, d);
    if linked.Threw? {
      AddArtifact(s, t, d);
    } else if Sign(h, g, d).Threw? {
      AddTwice(s.artifacts, d, Unsigned(h, g, d));
      AddArtifact(s, t, Unsigned(h, g, d));
    } else {
      var signed := Sign(h, g, d).value;
      AddTwice(s.artifacts, d, signed);
      ChargeSame(s1.(graph := g, artifacts := s1.artifacts[d.id := signed]), signed);
      AddArtifact(s, t, signed);
    }
  }

  lemma GraphOf(s: State)
    requires WellFormed(s)
    ensures Valid(s.graph) && s.indexed <= s.artifacts.Keys
  {
  }

  lemma AddTwice(m: map<Id, Descriptor>, d: Descriptor, e: Descriptor)
    requires d.id == e.id
    ensures m[d.id := d][d.id := e] == m[e.id := e]
  {
  }

  lemma PublishKeeps(h: Bytes -> Digest, s: State, req: PublishRequest, d: Descriptor)
    requires WellFormed(s)
    ensures WellFormed(PublishLocked(h, s, req, d).1)
  {
    hide WellFormed, Enter, Keep;
    var (kept, s1) := Keep(s, d.contentDigest, req.content, ChargedSize(d, req.content));
    KeepSame(s, d.contentDigest, req.content, ChargedSize(d, req.content));
    StoreKeeps(s, s1);
    if Admit(s, req.authority, d).Returned? && kept.Returned? { EnterKeeps(h, s1, d.(lifecycle := BUILDING)); }
  }

  lemma StoreKeeps(s: State, t: State)
    requires WellFormed(s) && SameCatalog(s, t)
    ensures WellFormed(t)
  {
    hide Valid;
  }

  lemma LockedKeeps(h: Bytes -> Digest, s: State, c: Call, next: U64)
    requires WellFormed(s) && c.Mutates()
    ensures WellFormed(Locked(h, s, c, next).1)
  {
    hide WellFormed, Complete, PublishLocked, Move, RetireLocked, InvalidateLocked, RegisterLocked;
    match c
    case Register(desc, a) => RegisterKeeps(s, desc);
    case Publish(req) =>
      var d := Complete(h, next, req);
      if d.Returned? { PublishKeeps(h, s, req, d.value); }
    case Validate(id, report, a) =>
      if id in s.artifacts {
        IdsMatch(s, id);
        MoveKeeps(s, id, s.artifacts[id].(validation := report.state), if report.AllOk() then VALID else FAILED);
      }
    case Promote(id, a) =>
      if id in s.artifacts { IdsMatch(s, id); MoveKeeps(s, id, s.artifacts[id], ACTIVE); }
    case Supersede(id, successor, a) => SupersedeKeeps(s, id, successor, a);
    case Invalidate(id, cause, a) => InvalidateKeeps(s, id, cause, a);
    case SetAside(id, record, a) => SetAsideKeeps(s, id, record);
    case Retire(id, a) => RetireKeeps(s, id);
  }

  lemma RegisterKeeps(s: State, desc: Descriptor)
    requires WellFormed(s)
    ensures WellFormed(RegisterLocked(s, desc).1)
  {
    hide Valid;
  }

  lemma InvalidateKeeps(s: State, id: Id, cause: Bytes, a: Authority)
    requires WellFormed(s)
    ensures WellFormed(InvalidateLocked(s, id, cause, a).1)
  {
    hide WellFormed;
  }

  /** Nothing a well-formed catalog is about differs. */
  lemma SameCore(s: State, t: State)
    requires WellFormed(s) && t.artifacts == s.artifacts && t.graph == s.graph && t.indexed == s.indexed
    ensures WellFormed(t)
  {
    hide Valid;
  }

  lemma SupersedeKeeps(s: State, id: Id, successor: Id, a: Authority)
    requires WellFormed(s)
    ensures WellFormed(SupersedeLocked(s, id, successor, a).1)
  {
    hide WellFormed, Move;
    if id in s.artifacts {
      IdsMatch(s, id);
      MoveKeeps(s, id, s.artifacts[id], SUPERSEDED);
      if successor in s.artifacts && SupersedeLocked(s, id, successor, a).0.Returned? {
        SameCore(Move(s, id, s.artifacts[id], SUPERSEDED).1, SupersedeLocked(s, id, successor, a).1);
      }
    }
  }

  lemma SetAsideKeeps(s: State, id: Id, record: Quarantine)
    requires WellFormed(s)
    ensures WellFormed(QuarantineLocked(s, id, record).1)
  {
    hide WellFormed, Move;
    if id in s.artifacts {
      IdsMatch(s, id);
      var d := s.artifacts[id].(validation := QUARANTINE);
      MoveKeeps(s, id, d, QUARANTINED);
      SameCore(Move(s, id, d, QUARANTINED).1, QuarantineLocked(s, id, record).1);
    }
  }

  lemma DoKeeps(h: Bytes -> Digest, s: State, c: Call)
    requires WellFormed(s)
    ensures WellFormed(Do(h, s, c).1)
  {
    hide Locked, Valid;
    if c.Mutates() { LockedKeeps(h, s, c, s.nextGeneration); }
  }

  // ---- the three kinds of normal return -------------------------------------------------

  /** The same artifact, possibly in another lifecycle or validation state. */
  ghost predicate SameArtifact(d: Descriptor, e: Descriptor) {
    e == d.(lifecycle := e.lifecycle, validation := e.validation)
  }

  /** The moves the calls other than `retire` make. */
  predicate Moved(from: LifecycleState, to: LifecycleState) {
    from == to
    || (CanTransition(from, to)
        && (to == VALID || to == FAILED || to == ACTIVE || to == SUPERSEDED || to == INVALIDATED || to == QUARANTINED))
  }

  /** The same artifact after such a move; only validation and quarantine change the other state. */
  ghost predicate RelabelledOne(d: Descriptor, e: Descriptor) {
    && SameArtifact(d, e) && Moved(d.lifecycle, e.lifecycle)
    && (e.validation == d.validation || e.lifecycle == VALID || e.lifecycle == FAILED || e.lifecycle == QUARANTINED)
  }

  ghost predicate RelabelledAll(m: map<Id, Descriptor>, n: map<Id, Descriptor>) {
    n.Keys == m.Keys && forall id :: id in m ==> RelabelledOne(m[id], n[id])
  }

  /** Artifacts changed their state; none entered the catalog, left it or was retired. */
  ghost predicate Relabelled(s: State, t: State) {
    && RelabelledAll(s.artifacts, t.artifacts)
    && t.graph == s.graph && t.store == s.store && t.nextGeneration == s.nextGeneration
    && t.counters == s.counters.(invalidations := t.counters.invalidations, supersessions := t.counters.supersessions)
    && (s.indexed == s.artifacts.Keys ==> t.indexed == t.artifacts.Keys)
  }

  /** What the store becomes when a content is published. */
  function Stored(store: map<Digest, Content>, cd: Digest, content: Bytes): map<Digest, Content> {
    if cd in store then store[cd := store[cd].(references := Up(store[cd].references))]
    else store[cd := Content(content, 1)]
  }

  /** What the store becomes when a holder of `cd` is retired. */
  function Released(store: map<Digest, Content>, cd: Digest): map<Digest, Content> {
    if cd !in store then store
    else if Down(store[cd].references) == 0 then store - {cd}
    else store[cd := store[cd].(references := Down(store[cd].references))]
  }

  /** `d` entered the catalog, signed and published, for request `req`. */
  ghost predicate Published(h: Bytes -> Digest, s: State, t: State, req: PublishRequest, d: Descriptor) {
    && d.id !in s.artifacts && t.artifacts == s.artifacts[d.id := d]
    && d.contentDigest == h(req.content) && d.lifecycle == PUBLISHED && Encodable(d)
    && d.dependencies == req.descriptor.dependencies && d.sizeBytes == req.descriptor.sizeBytes
    && d.placements == req.descriptor.placements
    && Valid(s.graph) && Link(s.graph, d.id, d.dependencies) == (Returned(()), t.graph)
    && t.store == Stored(s.store, d.contentDigest, req.content)
    && t.counters == s.counters.(
         logicalArtifacts := s.counters.logicalArtifacts + 1,
         logicalBytes := s.counters.logicalBytes + ToI64(d.sizeBytes),
         activeReferences := s.counters.activeReferences + 1,
         physicalBacking := s.counters.physicalBacking + if d.contentDigest in s.store then 0 else 1,
         physicalBytes := s.counters.physicalBytes + (if d.contentDigest in s.store then 0 else ChargedSize(d, req.content)),
         dedupBytes := t.counters.dedupBytes)
    && t.indexed == s.indexed + {d.id}
    && t.successors == s.successors && t.predecessors == s.predecessors
    && t.epoch == s.epoch && t.boot == s.boot
  }

  /** `id` was retired. */
  ghost predicate RetiredOne(s: State, t: State, id: Id) {
    && id in s.artifacts && CanTransition(s.artifacts[id].lifecycle, RETIRED)
    && t.artifacts == s.artifacts[id := s.artifacts[id].(lifecycle := RETIRED)]
    && t.graph == s.graph && t.nextGeneration == s.nextGeneration
    && var d := s.artifacts[id]; var cd := d.contentDigest;
       var last := cd in s.store && Down(s.store[cd].references) == 0;
    && t.store == Released(s.store, cd)
    && t.counters == s.counters.(
         logicalArtifacts := s.counters.logicalArtifacts - 1,
         logicalBytes := s.counters.logicalBytes - ToI64(d.sizeBytes),
         activeReferences := s.counters.activeReferences - 1,
         physicalBacking := s.counters.physicalBacking - if last then 1 else 0,
         physicalBytes := s.counters.physicalBytes - if last then |s.store[cd].bytes| else 0)
    && t.indexed == s.indexed + {id}
    && t.successors == s.successors && t.predecessors == s.predecessors
    && t.epoch == s.epoch && t.boot == s.boot
  }

  lemma MoveRelabels(s: State, id: Id, d: Descriptor, to: LifecycleState)
    requires id in s.artifacts && SameArtifact(s.artifacts[id], d) && d.lifecycle == s.artifacts[id].lifecycle
    requires Move(s, id, d, to).0.Returned?
    requires to == VALID || to == FAILED || to == ACTIVE || to == SUPERSEDED || to == QUARANTINED
    requires d.validation == s.artifacts[id].validation || to == VALID || to == FAILED || to == QUARANTINED
    ensures Relabelled(s, Move(s, id, d, to).1)
  {
    hide CanTransition;
    ReplaceRelabels(s.artifacts, id, d.(lifecycle := to));
  }

  lemma RelabelSelf(d: Descriptor)
    ensures RelabelledOne(d, d)
  {
    hide CanTransition;
  }

  lemma ReplaceRelabels(m: map<Id, Descriptor>, id: Id, e: Descriptor)
    requires id in m && RelabelledOne(m[id], e)
    ensures RelabelledAll(m, m[id := e])
  {
    hide RelabelledOne;
    forall x | x in m && x != id ensures RelabelledOne(m[x], m[x]) { RelabelSelf(m[x]); }
  }

  lemma SameRelabels(m: map<Id, Descriptor>)
    ensures RelabelledAll(m, m)
  {
    hide RelabelledOne;
    forall x | x in m ensures RelabelledOne(m[x], m[x]) { RelabelSelf(m[x]); }
  }

  lemma InvalidatedRelabels(d: Descriptor)
    requires CanTransition(d.lifecycle, INVALIDATED)
    ensures RelabelledOne(d, Invalidated(d))
  {
  }

  lemma MarkedRelabels(m: map<Id, Descriptor>, marked: set<Id>)
    requires forall x :: x in m && x in marked ==> CanTransition(m[x].lifecycle, INVALIDATED)
    ensures RelabelledAll(m, MarkedArtifacts(m, marked))
  {
    hide RelabelledOne, Invalidated, CanTransition;
    forall x | x in m ensures RelabelledOne(m[x], MarkedArtifacts(m, marked)[x]) {
      if x in marked { InvalidatedRelabels(m[x]); } else { RelabelSelf(m[x]); }
    }
  }

  lemma MarkRelabels(s: State, marked: set<Id>, cause: Bytes)
    requires AllCan(s, marked)
    ensures Relabelled(s, MarkAll(s, marked, cause))
  {
    hide RelabelledAll, MarkedArtifacts, MarkedCauses, CanTransition;
    forall x | x in s.artifacts && x in marked ensures CanTransition(s.artifacts[x].lifecycle, INVALIDATED) {
      assert CanInvalidate(s, x);
    }
    MarkedRelabels(s.artifacts, marked);
    MarkedKeys(s.artifacts, marked);
    forall x | x in marked ensures x in s.artifacts { assert CanInvalidate(s, x); }
  }

  lemma MarkedKeys(m: map<Id, Descriptor>, marked: set<Id>)
    ensures MarkedArtifacts(m, marked).Keys == m.Keys
  {
  }

  lemma InvalidateRelabels(s: State, id: Id, cause: Bytes, a: Authority)
    requires WellFormed(s) && InvalidateLocked(s, id, cause, a).0.Returned?
    ensures id in s.artifacts && Relabelled(s, InvalidateLocked(s, id, cause, a).1)
  {
    hide WellFormed, InvalidateFrom, Relabelled, MarkAll, Hit, AllCan;
    InvalidationIsExact(s, id, cause, a);
    HitCan(s, id);
    MarkRelabels(s, Hit(s, id), cause);
  }

  lemma SupersedeRelabels(s: State, id: Id, successor: Id, a: Authority)
    requires SupersedeLocked(s, id, successor, a).0.Returned?
    ensures Relabelled(s, SupersedeLocked(s, id, successor, a).1)
  {
    hide CanTransition, RelabelledAll, SameArtifact;
    SameArtifactSelf(s.artifacts[id]);
    MoveRelabels(s, id, s.artifacts[id], SUPERSEDED);
  }

  lemma SameArtifactSelf(d: Descriptor)
    ensures SameArtifact(d, d)
  {
  }

  lemma SameArtifactValidation(d: Descriptor, v: ValidationState)
    ensures SameArtifact(d, d.(validation := v))
  {
  }

  lemma SetAsideRelabels(s: State, id: Id, record: Quarantine)
    requires QuarantineLocked(s, id, record).0.Returned?
    ensures Relabelled(s, QuarantineLocked(s, id, record).1)
  {
    hide CanTransition, RelabelledAll, SameArtifact;
    SameArtifactValidation(s.artifacts[id], QUARANTINE);
    MoveRelabels(s, id, s.artifacts[id].(validation := QUARANTINE), QUARANTINED);
  }

  lemma DropEffect(s: State, cd: Digest)
    requires Drop(s, cd).0.Returned?
    ensures var last := cd in s.store && Down(s.store[cd].references) == 0;
      Drop(s, cd).1 == s.(
        store := Released(s.store, cd),
        counters := s.counters.(
          physicalBacking := s.counters.physicalBacking - if last then 1 else 0,
          physicalBytes := s.counters.physicalBytes - if last then |s.store[cd].bytes| else 0))
  {
    if cd in s.store { assert s.store[cd := s.store[cd].(references := 0)] - {cd} == s.store - {cd}; }
  }

  lemma DischargeEffect(s: State, d: Descriptor)
    requires Discharge(s, d).0.Returned?
    ensures Discharge(s, d).1 == s.(counters := s.counters.(
      logicalArtifacts := s.counters.logicalArtifacts - 1,
      logicalBytes := s.counters.logicalBytes - ToI64(d.sizeBytes),
      activeReferences := s.counters.activeReferences - 1))
  {
    hide ToI64;
  }

  lemma RetireEffect(s: State, id: Id)
    requires RetireLocked(s, id).0.Returned?
    ensures RetiredOne(s, RetireLocked(s, id).1, id)
  {
    hide CanTransition, ToI64, Drop, Discharge, Released, Down;
    var d := s.artifacts[id];
    var s1 := s.(artifacts := s.artifacts[id := d.(lifecycle := RETIRED)], indexed := s.indexed - {id});
    DropEffect(s1, d.contentDigest);
    var s2 := Drop(s1, d.contentDigest).1;
    DischargeEffect(s2, d);
    assert s.indexed - {id} + {id} == s.indexed + {id};
  }

  lemma CompleteFields(h: Bytes -> Digest, next: U64, req: PublishRequest)
    requires Complete(h, next, req).Returned?
    ensures var d := Complete(h, next, req).value; var e := req.descriptor;
      && d.contentDigest == h(req.content) && d.dependencies == e.dependencies && d.sizeBytes == e.sizeBytes
      && d.placements == e.placements
  {
    hide DeriveId;
  }

  lemma KeepEffect(s: State, cd: Digest, content: Bytes, size: int)
    requires Keep(s, cd, content, size).0.Returned?
    ensures var t := Keep(s, cd, content, size).1;
      && t.store == Stored(s.store, cd, content)
      && t == s.(store := t.store, counters := s.counters.(
           physicalBacking := s.counters.physicalBacking + if cd in s.store then 0 else 1,
           physicalBytes := s.counters.physicalBytes + (if cd in s.store then 0 else size),
           dedupBytes := t.counters.dedupBytes))
  {
    hide Up;
  }

  lemma ChargeEffect(s: State, d: Descriptor)
    requires Charge(s, d).0.Returned?
    ensures var t := Charge(s, d).1;
      t == s.(nextGeneration := t.nextGeneration, counters := s.counters.(
        logicalArtifacts := s.counters.logicalArtifacts + 1,
        logicalBytes := s.counters.logicalBytes + ToI64(d.sizeBytes),
        activeReferences := s.counters.activeReferences + 1))
  {
    hide ToI64;
  }

  lemma SignEffect(h: Bytes -> Digest, g: Graph, d: Descriptor)
    requires Valid(g) && Sign(h, g, d).Returned?
    ensures var e := Sign(h, g, d).value;
      && e.id == d.id && e.contentDigest == d.contentDigest && e.dependencies == d.dependencies
      && e.sizeBytes == d.sizeBytes && e.placements == d.placements && e.lifecycle == PUBLISHED && Encodable(e)
      && e.generation == d.generation && e.validation == INTEGRITY_OK
  {
    hide Refresh, DigestInput;
    RefreshSame(h, Unsigned(h, g, d));
  }

  lemma UnitOutcome(o: Outcome<()>)
    ensures o.Returned? ==> o == Returned(())
  {
    if o.Returned? { assert o.value == (); }
  }

  lemma EnterEffect(h: Bytes -> Digest, s: State, d: Descriptor)
    requires WellFormed(s) && Enter(h, s, d).0.Returned?
    ensures var t := Enter(h, s, d).1; var g := Link(s.graph, d.id, d.dependencies).1;
      && Link(s.graph, d.id, d.dependencies).0 == Returned(())
      && Sign(h, g, d).Returned?
      && var e := Sign(h, g, d).value;
         t == s.(artifacts := s.artifacts[d.id := e], graph := g, nextGeneration := t.nextGeneration,
                 indexed := s.indexed + {d.id}, counters := s.counters.(
                   logicalArtifacts := s.counters.logicalArtifacts + 1,
                   logicalBytes := s.counters.logicalBytes + ToI64(d.sizeBytes),
                   activeReferences := s.counters.activeReferences + 1))
  {
    hide WellFormed, Link, Sign, Unsigned, Charge, ToI64;
    GraphOf(s);
    var s1 := s.(artifacts := s.artifacts[d.id := d]);
    var (linked, g) := Link(s1.graph, d.id, d.dependencies);
    UnitOutcome(linked);
    var e := Sign(h, g, d).value;
    SignEffect(h, g, d);
    AddTwice(s.artifacts, d, e);
    ChargeEffect(s1.(graph := g, artifacts := s1.artifacts[d.id := e]), e);
  }

  lemma PublishEffect(h: Bytes -> Digest, s: State, req: PublishRequest, d: Descriptor)
    requires WellFormed(s) && PublishLocked(h, s, req, d).0.Returned?
    requires d.contentDigest == h(req.content) && d.dependencies == req.descriptor.dependencies
    requires d.sizeBytes == req.descriptor.sizeBytes && d.placements == req.descriptor.placements
    ensures d.id in PublishLocked(h, s, req, d).1.artifacts
    ensures Published(h, s, PublishLocked(h, s, req, d).1, req, PublishLocked(h, s, req, d).1.artifacts[d.id])
  {
    hide WellFormed, Enter, Keep, Link, Sign, ToI64, Stored, Encodable;
    var size := ChargedSize(d, req.content);
    KeepEffect(s, d.contentDigest, req.content, size);
    var s1 := Keep(s, d.contentDigest, req.content, size).1;
    KeepSame(s, d.contentDigest, req.content, size);
    StoreKeeps(s, s1);
    GraphOf(s1);
    var b := d.(lifecycle := BUILDING);
    EnterEffect(h, s1, b);
    SignEffect(h, Link(s1.graph, b.id, b.dependencies).1, b);
  }

  /** Every call that returns normally, `register_artifact` excepted, is of one of the three
      kinds. */
  lemma Effects(h: Bytes -> Digest, s: State, c: Call)
    requires WellFormed(s) && !c.Register? && Do(h, s, c).0.Returned?
    ensures var t := Do(h, s, c).1;
      || Relabelled(s, t)
      || (c.Publish? && exists d :: Published(h, s, t, c.request, d))
      || (c.Retire? && RetiredOne(s, t, c.id))
  {
    hide WellFormed, Complete, PublishLocked, Move, RetireLocked, InvalidateLocked, SupersedeLocked, QuarantineLocked,
      RegisterLocked, Relabelled, Published, RetiredOne, SameArtifact, RelabelledAll;
    var t := Do(h, s, c).1;
    match c
    case Publish(req) =>
      var d := Complete(h, s.nextGeneration, req).value;
      CompleteFields(h, s.nextGeneration, req);
      PublishEffect(h, s, req, d);
    case Validate(id, report, a) =>
      var d := s.artifacts[id].(validation := report.state);
      SameArtifactValidation(s.artifacts[id], report.state);
      MoveRelabels(s, id, d, if report.AllOk() then VALID else FAILED);
    case Promote(id, a) =>
      SameArtifactSelf(s.artifacts[id]);
      MoveRelabels(s, id, s.artifacts[id], ACTIVE);
    case Supersede(id, successor, a) => SupersedeRelabels(s, id, successor, a);
    case Invalidate(id, cause, a) => InvalidateRelabels(s, id, cause, a);
    case SetAside(id, record, a) => SetAsideRelabels(s, id, record);
    case Retire(id, a) => RetireEffect(s, id);
    case RollEpoch(boot) => AdminRelabels(s, t);
    case SetAuthority(epoch, boot) => AdminRelabels(s, t);
    case RebuildIndexes => AdminRelabels(s, t);
    case Register(desc, a) =>
  }

  lemma AdminRelabels(s: State, t: State)
    requires t == s.(epoch := t.epoch, boot := t.boot, indexed := t.indexed)
    requires t.indexed == s.indexed || t.indexed == s.artifacts.Keys
    ensures Relabelled(s, t)
  {
    hide RelabelledAll;
    SameRelabels(s.artifacts);
  }

}
