/** Artifacts that calls which throw leave out of the indexes. */
module IndexGaps {
  import opened Types
  import opened Collections
  import opened Sorting
  import opened Lifecycle
  import opened GraphModel
  import opened DescriptorFormat
  import opened CatalogModel
  import opened Invalidation
  import opened CatalogEffects
  import opened CatalogRuns
  import opened CounterGuards
  import opened Publications

  /** The artifacts no index lists. */
  function Gaps(s: State): set<Id> {
    s.artifacts.Keys - s.indexed
  }

  /** Some artifact that was indexed or unknown is left out afterwards. */
  predicate Strands(s: State, t: State) {
    !(Gaps(t) <= Gaps(s))
  }

  // ---- lifecycle calls ------------------------------------------------------------------

  lemma MoveStrandsIff(s: State, id: Id, d: Descriptor, to: LifecycleState)
    requires id in s.artifacts
    ensures Strands(s, Move(s, id, d, to).1) <==> id in s.indexed && !CanTransition(d.lifecycle, to)
  {
    hide CanTransition;
    var t := Move(s, id, d, to).1;
    assert t.artifacts.Keys == s.artifacts.Keys;
    if id in s.indexed && !CanTransition(d.lifecycle, to) { assert id in Gaps(t) && id !in Gaps(s); }
  }

  lemma SameStrands(s: State, t: State, u: State)
    requires u.artifacts == t.artifacts && u.indexed == t.indexed
    ensures Strands(s, u) <==> Strands(s, t)
  {
  }

  lemma NothingStrands(s: State)
    ensures !Strands(s, s)
  {
  }

  predicate Dischargeable(s: State, d: Descriptor) {
    s.counters.logicalBytes - ToI64(d.sizeBytes) >= 0 && s.counters.activeReferences >= 1
  }

  lemma RetiredFrom(l: LifecycleState)
    ensures CanTransition(l, RETIRED) <==>
      l in {DECLARED, VALID, PUBLISHED, ACTIVE, STALE, INVALIDATED, SUPERSEDED, QUARANTINED, EVICTED}
  {
    EnteredFrom(l);
  }

  lemma RetireStrandsIff(s: State, id: Id)
    requires id in s.artifacts
    ensures Strands(s, RetireLocked(s, id).1) <==>
      && id in s.indexed
      && !(s.artifacts[id].lifecycle in {DECLARED, VALID, PUBLISHED, ACTIVE, STALE, INVALIDATED, SUPERSEDED, QUARANTINED, EVICTED}
           && Droppable(s, s.artifacts[id].contentDigest) && Dischargeable(s, s.artifacts[id]))
  {
    hide CanTransition, Drop, Discharge, Droppable, Dischargeable;
    var d := s.artifacts[id];
    RetiredFrom(d.lifecycle);
    var s1 := s.(artifacts := s.artifacts[id := d.(lifecycle := RETIRED)], indexed := s.indexed - {id});
    DropIs(s, s1, d.contentDigest);
    DropSame(s1, d.contentDigest);
    var s2 := Drop(s1, d.contentDigest).1;
    DischargeIs(s, s2, d);
    DischargeSame(s2, d);
    var t := RetireLocked(s, id).1;
    assert t.artifacts.Keys == s.artifacts.Keys;
    assert t.indexed == s.indexed - {id} || t.indexed == s.indexed - {id} + {id};
    assert id in t.indexed || id in Gaps(t);
  }

  lemma DropIs(s: State, t: State, cd: Digest)
    requires t.store == s.store && t.counters == s.counters
    ensures Drop(t, cd).0.Returned? <==> Droppable(s, cd)
    ensures Drop(t, cd).1.counters.logicalBytes == s.counters.logicalBytes
    ensures Drop(t, cd).1.counters.activeReferences == s.counters.activeReferences
  {
    hide Down;
  }

  lemma DischargeIs(s: State, t: State, d: Descriptor)
    requires t.counters.logicalBytes == s.counters.logicalBytes && t.counters.activeReferences == s.counters.activeReferences
    ensures Discharge(t, d).0.Returned? <==> Dischargeable(s, d)
  {
    hide ToI64;
  }

  // ---- publish --------------------------------------------------------------------------

  /** What `publish` still has to get past once the artifact is entered. */
  ghost predicate Completable(s: State, d: Descriptor) {
    && |s.graph.nodes| < MAX_NODES && |s.graph.nodes + {d.id} + Elements(Targets(d.dependencies))| <= MAX_NODES
    && Fits(s.graph, d.id, d.dependencies) && Encodable(d) && Countable(s, d)
  }

  lemma EnterGaps(h: Bytes -> Digest, s: State, d: Descriptor)
    requires WellFormed(s)
    ensures var (r, t) := Enter(h, s, d);
      && t.artifacts.Keys == s.artifacts.Keys + {d.id}
      && t.indexed == s.indexed + if r.Returned? then {d.id} else {}
  {
    hide WellFormed, Link, Sign, Unsigned, Charge, Valid;
    GraphOf(s);
    var s1 := s.(artifacts := s.artifacts[d.id := d]);
    var (linked, g) := Link(s1.graph, d.id, d.dependencies);
    UnsignedId(h, g, d);
    if linked.Returned? && Sign(h, g, d).Returned? {
      var e := Sign(h, g, d).value;
      ChargeSame(s1.(graph := g, artifacts := s1.artifacts[d.id := e]), e);
    }
  }

  lemma EnterStrandsIff(h: Bytes -> Digest, s: State, t: State, d: Descriptor)
    requires WellFormed(s) && WellFormed(t) && SameCatalog(s, t) && t.nextGeneration == s.nextGeneration
    requires t.counters.logicalBytes == s.counters.logicalBytes && t.counters.activeReferences == s.counters.activeReferences
    requires d.id !in s.artifacts
    ensures Strands(s, Enter(h, t, d.(lifecycle := BUILDING)).1) <==> !Completable(s, d)
  {
    hide WellFormed, Enter, Link, Sign, Encodable, Fits, Countable, Elements, Targets, Strands, Valid;
    var b := d.(lifecycle := BUILDING);
    GraphOf(s);
    SameLimits(d, b);
    LinkReturnsIff(s.graph, d.id, d.dependencies);
    EnterReturnsIff(h, t, b);
    CountableSame(s, t, d, b);
    EnterGaps(h, t, b);
    EnteredStrands(s, Enter(h, t, b).1, d.id);
  }

  lemma PublishStrandsIff(h: Bytes -> Digest, s: State, req: PublishRequest, d: Descriptor)
    requires WellFormed(s)
    ensures Strands(s, PublishLocked(h, s, req, d).1) <==>
      && Admit(s, req.authority, d).Returned? && Chargeable(s, d.contentDigest, ChargedSize(d, req.content))
      && !Completable(s, d)
  {
    hide WellFormed, Enter, Keep, ToI64, Chargeable, Completable, Strands, Valid;
    var size := ChargedSize(d, req.content);
    KeepReturnsIff(s, d.contentDigest, req.content, size);
    KeepSame(s, d.contentDigest, req.content, size);
    var s1 := Keep(s, d.contentDigest, req.content, size).1;
    StoreKeeps(s, s1);
    if Admit(s, req.authority, d).Returned? && Chargeable(s, d.contentDigest, size) {
      EnterStrandsIff(h, s, s1, d);
    } else {
      SameStrands(s, s, PublishLocked(h, s, req, d).1);
      NothingStrands(s);
    }
  }

  lemma CountableSame(s: State, t: State, d: Descriptor, e: Descriptor)
    requires t.counters.logicalBytes == s.counters.logicalBytes && t.counters.activeReferences == s.counters.activeReferences
    requires t.nextGeneration == s.nextGeneration && e == d.(lifecycle := e.lifecycle)
    ensures Countable(t, e) <==> Countable(s, d)
  {
    hide ToI64;
  }

  lemma EnteredStrands(s: State, t: State, id: Id)
    requires id !in s.artifacts && s.indexed <= s.artifacts.Keys && t.artifacts.Keys == s.artifacts.Keys + {id}
    requires t.indexed == s.indexed || t.indexed == s.indexed + {id}
    ensures Strands(s, t) <==> t.indexed == s.indexed
  {
    assert id !in s.indexed;
    if t.indexed == s.indexed { assert id in Gaps(t) && id !in Gaps(s); }
  }

  // ---- invalidate -----------------------------------------------------------------------

  /** Where an invalidation that throws stops: at an artifact it has taken out of the indexes. */
  ghost predicate StopsIn(t: State, members: set<Id>) {
    exists x :: x in members && x in t.artifacts && x !in t.indexed
  }

  lemma StopsWithin(t: State, some: set<Id>, all: set<Id>)
    requires StopsIn(t, some) && some <= all
    ensures StopsIn(t, all)
  {
  }

  lemma OneStops(s: State, id: Id, cause: Bytes)
    requires id in s.artifacts && InvalidateOne(s, id, cause).0.Threw?
    ensures StopsIn(InvalidateOne(s, id, cause).1, {id})
  {
    hide CanTransition;
    var t := InvalidateOne(s, id, cause).1;
    assert id in t.artifacts && id !in t.indexed;
  }

  lemma {:induction false} FromStops(s: State, id: Id, cause: Bytes)
    requires WellFormed(s) && InvalidateFrom(s, id, cause).0.Threw?
    ensures StopsIn(InvalidateFrom(s, id, cause).1, {id} + Dependents(s.graph, id))
    decreases |LiveSet(s)|, if Live(s, id) then 0 else 2, 0
  {
    hide WellFormed, InvalidateEach, InvalidateOne, InvalidateFrom, StopsIn, Dependents, LiveSet;
    FromUnfolds(s, id, cause);
    var all := Dependents(s.graph, id);
    var ids := SortedIds(all);
    if Live(s, id) {
      InvalidateOneSettles(s, id, cause);
      OneOnlyStates(s, id, cause);
      var (moved, t) := InvalidateOne(s, id, cause);
      if moved.Threw? {
        OneStops(s, id, cause);
        StopsWithin(t, {id}, {id} + all);
      } else {
        EachStops(t, ids, cause, id);
        StopsWithin(InvalidateFrom(s, id, cause).1, all, {id} + all);
      }
    } else {
      EachStops(s, ids, cause, id);
      StopsWithin(InvalidateFrom(s, id, cause).1, all, {id} + all);
    }
  }

  lemma {:induction false} EachStops(s: State, ids: seq<Id>, cause: Bytes, root: Id)
    requires WellFormed(s) && InvalidateEach(s, ids, cause).0.Threw?
    requires forall y :: y in ids ==> y in Dependents(s.graph, root)
    ensures StopsIn(InvalidateEach(s, ids, cause).1, Dependents(s.graph, root))
    decreases |LiveSet(s)|, 1, |ids|
  {
    hide WellFormed, InvalidateEach, InvalidateFrom, StopsIn, Dependents, LiveSet;
    EachUnfolds(s, ids, cause);
    if Live(s, ids[0]) {
      FromOnlyStates(s, ids[0], cause);
      var (done, t) := InvalidateFrom(s, ids[0], cause);
      SubsetSize(LiveSet(t), LiveSet(s));
      if done.Threw? {
        FromStops(s, ids[0], cause);
        DependentsOfDependents(s.graph, root, ids[0]);
        StopsWithin(t, {ids[0]} + Dependents(s.graph, ids[0]), Dependents(s.graph, root));
      } else {
        EachStops(t, ids[1..], cause, root);
      }
    } else {
      EachStops(s, ids[1..], cause, root);
    }
  }

  /** `id` and what depends on it is indexed, as far as it is catalogued. */
  ghost predicate ClosureIndexed(s: State, id: Id) {
    forall x :: x in s.artifacts && (x == id || DependsOn(s.graph, x, id)) ==> x in s.indexed
  }

  /** Something in the closure cannot be invalidated. */
  ghost predicate Stuck(s: State, id: Id) {
    exists x :: x in s.artifacts && (x == id || DependsOn(s.graph, x, id))
      && s.artifacts[x].lifecycle !in {VALID, PUBLISHED, ACTIVE, STALE, INVALIDATED, RETIRED, EVICTED}
  }

  lemma {:induction false} FromSameKeys(s: State, id: Id, cause: Bytes)
    requires WellFormed(s)
    ensures InvalidateFrom(s, id, cause).1.artifacts.Keys == s.artifacts.Keys
    decreases |LiveSet(s)|, if Live(s, id) then 0 else 2, 0
  {
    hide WellFormed, InvalidateEach, InvalidateOne, InvalidateFrom, LiveSet;
    FromUnfolds(s, id, cause);
    if Live(s, id) {
      InvalidateOneSettles(s, id, cause);
      OneSameKeys(s, id, cause);
      var (moved, t) := InvalidateOne(s, id, cause);
      if moved.Returned? { EachSameKeys(t, SortedIds(Dependents(t.graph, id)), cause); }
    } else {
      EachSameKeys(s, SortedIds(Dependents(s.graph, id)), cause);
    }
  }

  lemma OneSameKeys(s: State, id: Id, cause: Bytes)
    requires id in s.artifacts
    ensures InvalidateOne(s, id, cause).1.artifacts.Keys == s.artifacts.Keys
  {
    hide CanTransition;
  }

  lemma {:induction false} EachSameKeys(s: State, ids: seq<Id>, cause: Bytes)
    requires WellFormed(s)
    ensures InvalidateEach(s, ids, cause).1.artifacts.Keys == s.artifacts.Keys
    decreases |LiveSet(s)|, 1, |ids|
  {
    hide WellFormed, InvalidateEach, InvalidateFrom, LiveSet;
    EachUnfolds(s, ids, cause);
    if ids != [] {
      if Live(s, ids[0]) {
        FromSameKeys(s, ids[0], cause);
        var (done, t) := InvalidateFrom(s, ids[0], cause);
        SubsetSize(LiveSet(t), LiveSet(s));
        if done.Returned? { EachSameKeys(t, ids[1..], cause); }
      } else {
        EachSameKeys(s, ids[1..], cause);
      }
    }
  }

  lemma InvalidateStrandsIff(s: State, id: Id, cause: Bytes, a: Authority)
    requires WellFormed(s) && ClosureIndexed(s, id)
    ensures Strands(s, InvalidateLocked(s, id, cause, a).1) <==>
      id in s.artifacts && !StaleGeneration(a, s.artifacts[id].generation) && Stuck(s, id)
  {
    hide WellFormed, InvalidateFrom, MarkAll, Hit, StopsIn, Strands, DependsOn, Dependents;
    NothingStrands(s);
    if id in s.artifacts && !StaleGeneration(a, s.artifacts[id].generation) {
      InvalidationIsExact(s, id, cause, a);
      if Stuck(s, id) {
        FromStops(s, id, cause);
        FromSameKeys(s, id, cause);
        StopStrands(s, InvalidateLocked(s, id, cause, a).1, id);
      } else {
        MarkStrandsNothing(s, Hit(s, id), cause);
      }
    }
  }

  lemma StopStrands(s: State, t: State, id: Id)
    requires ClosureIndexed(s, id) && StopsIn(t, {id} + Dependents(s.graph, id)) && t.artifacts.Keys == s.artifacts.Keys
    ensures Strands(s, t)
  {
    hide DependsOn;
    var x :| x in {id} + Dependents(s.graph, id) && x in t.artifacts && x !in t.indexed;
    assert x in s.artifacts && x in s.indexed;
    assert x in Gaps(t) && x !in Gaps(s);
  }

  lemma MarkStrandsNothing(s: State, marked: set<Id>, cause: Bytes)
    ensures !Strands(s, MarkAll(s, marked, cause))
  {
    MarkedKeys(s.artifacts, marked);
  }

  // ---- any call -------------------------------------------------------------------------

  /** The call gets past its checks and then cannot finish, for an artifact that was indexed or
      is new. */
  ghost predicate FailsPartWay(h: Bytes -> Digest, s: State, c: Call)
    requires WellFormed(s)
  {
    c.Mutates() && Fence(s.epoch, s.boot, c.Envelope()).Returned? &&
    match c
    case Register(_, _) => false
    case Publish(req) =>
      var d := Complete(h, s.nextGeneration, req);
      && d.Returned? && Admit(s, req.authority, d.value).Returned?
      && Chargeable(s, d.value.contentDigest, ChargedSize(d.value, req.content)) && !Completable(s, d.value)
    case Validate(id, report, a) =>
      && id in s.indexed && !StaleGeneration(a, s.artifacts[id].generation)
      && s.artifacts[id].lifecycle !in (if report.AllOk() then {VALIDATING} else {DECLARED, BUILDING, VALIDATING})
    case Promote(id, a) =>
      && id in s.indexed && !StaleGeneration(a, s.artifacts[id].generation)
      && s.artifacts[id].lifecycle !in {VALID, PUBLISHED, STALE}
    case Supersede(id, successor, a) =>
      && id in s.indexed && successor in s.artifacts && !StaleGeneration(a, s.artifacts[successor].generation)
      && s.artifacts[id].lifecycle != RETIRED && s.artifacts[id].lifecycle != EVICTED
      && s.artifacts[id].lifecycle !in {VALID, PUBLISHED, ACTIVE}
    case Invalidate(id, cause, a) => id in s.artifacts && !StaleGeneration(a, s.artifacts[id].generation) && Stuck(s, id)
    case SetAside(id, record, a) => && id in s.indexed
      && s.artifacts[id].lifecycle !in {BUILDING, VALIDATING, VALID, PUBLISHED, ACTIVE, INVALIDATED, SUPERSEDED}
    case Retire(id, a) =>
      && id in s.indexed
      && !(s.artifacts[id].lifecycle in {DECLARED, VALID, PUBLISHED, ACTIVE, STALE, INVALIDATED, SUPERSEDED, QUARANTINED, EVICTED}
           && Droppable(s, s.artifacts[id].contentDigest) && Dischargeable(s, s.artifacts[id]))
  }

  lemma PromoteStrandsIff(s: State, id: Id, a: Authority)
    requires s.indexed <= s.artifacts.Keys
    ensures Strands(s, PromoteLocked(s, id, a).1) <==>
      && id in s.indexed && !StaleGeneration(a, s.artifacts[id].generation)
      && s.artifacts[id].lifecycle !in {VALID, PUBLISHED, STALE}
  {
    hide CanTransition, Strands, Move;
    NothingStrands(s);
    if id in s.artifacts { EnteredFrom(s.artifacts[id].lifecycle); }
    if id in s.artifacts { MoveStrandsIff(s, id, s.artifacts[id], ACTIVE); }
  }

  lemma ValidateStrandsIff(s: State, id: Id, report: Report, a: Authority)
    requires s.indexed <= s.artifacts.Keys
    ensures Strands(s, ValidateLocked(s, id, report, a).1) <==>
      && id in s.indexed && !StaleGeneration(a, s.artifacts[id].generation)
      && s.artifacts[id].lifecycle !in (if report.AllOk() then {VALIDATING} else {DECLARED, BUILDING, VALIDATING})
  {
    hide CanTransition, Strands, Move;
    NothingStrands(s);
    if id in s.artifacts { EnteredFrom(s.artifacts[id].lifecycle); }
    if id in s.artifacts {
      MoveStrandsIff(s, id, s.artifacts[id].(validation := report.state), if report.AllOk() then VALID else FAILED);
    }
  }

  lemma SupersedeStrandsIff(s: State, id: Id, successor: Id, a: Authority)
    requires s.indexed <= s.artifacts.Keys
    ensures Strands(s, SupersedeLocked(s, id, successor, a).1) <==>
      && id in s.indexed && successor in s.artifacts && !StaleGeneration(a, s.artifacts[successor].generation)
      && s.artifacts[id].lifecycle != RETIRED && s.artifacts[id].lifecycle != EVICTED
      && s.artifacts[id].lifecycle !in {VALID, PUBLISHED, ACTIVE}
  {
    hide CanTransition, Strands, Move, Push;
    NothingStrands(s);
    if id in s.artifacts { EnteredFrom(s.artifacts[id].lifecycle); }
    if id in s.artifacts {
      MoveStrandsIff(s, id, s.artifacts[id], SUPERSEDED);
      var t := Move(s, id, s.artifacts[id], SUPERSEDED).1;
      var u := SupersedeLocked(s, id, successor, a).1;
      if u.artifacts == t.artifacts && u.indexed == t.indexed { SameStrands(s, t, u); }
    }
  }

  lemma SetAsideStrandsIff(s: State, id: Id, record: Quarantine)
    requires s.indexed <= s.artifacts.Keys
    ensures Strands(s, QuarantineLocked(s, id, record).1) <==>
      && id in s.indexed
      && s.artifacts[id].lifecycle !in {BUILDING, VALIDATING, VALID, PUBLISHED, ACTIVE, INVALIDATED, SUPERSEDED}
  {
    hide CanTransition, Strands, Move, Push;
    NothingStrands(s);
    if id in s.artifacts { EnteredFrom(s.artifacts[id].lifecycle); }
    if id in s.artifacts {
      var d := s.artifacts[id].(validation := QUARANTINE);
      MoveStrandsIff(s, id, d, QUARANTINED);
      SameStrands(s, Move(s, id, d, QUARANTINED).1, QuarantineLocked(s, id, record).1);
    }
  }

  lemma RegisterStrandsNothing(s: State, desc: Descriptor)
    ensures !Strands(s, RegisterLocked(s, desc).1)
  {
  }

  /** Exactly when a call leaves more artifacts out of the indexes: when it gets past its checks
      and cannot finish. (Of an invalidation this is said when the closure is indexed; otherwise
      it may stop at an artifact that was left out before.) */
  lemma CallStrandsIff(h: Bytes -> Digest, s: State, c: Call)
    requires WellFormed(s) && (c.Invalidate? ==> ClosureIndexed(s, c.id))
    ensures Strands(s, Do(h, s, c).1) <==> FailsPartWay(h, s, c)
  {
    hide WellFormed, Complete, PublishLocked, RetireLocked, InvalidateLocked, SupersedeLocked, QuarantineLocked,
      RegisterLocked, ValidateLocked, PromoteLocked, CanTransition, Strands, Chargeable, Completable, Stuck, Droppable, Dischargeable,
      ClosureIndexed;
    NothingStrands(s);
    GraphOf(s);
    match c
    case Register(desc, _) => RegisterStrandsNothing(s, desc);
    case Publish(req) =>
      var d := Complete(h, s.nextGeneration, req);
      if d.Returned? { PublishStrandsIff(h, s, req, d.value); }
    case Validate(id, report, a) => ValidateStrandsIff(s, id, report, a);
    case Promote(id, a) => PromoteStrandsIff(s, id, a);
    case Supersede(id, successor, a) => SupersedeStrandsIff(s, id, successor, a);
    case Invalidate(id, cause, a) => InvalidateStrandsIff(s, id, cause, a);
    case SetAside(id, record, a) => SetAsideStrandsIff(s, id, record);
    case Retire(id, a) =>
      if id in s.artifacts { RetireStrandsIff(s, id); }
      RetireUnknown(s, id);
    case RollEpoch(_) => SameStrands(s, s, Do(h, s, c).1);
    case SetAuthority(_, _) => SameStrands(s, s, Do(h, s, c).1);
    case RebuildIndexes => RebuiltStrandsNothing(s);
  }

  lemma RetireUnknown(s: State, id: Id)
    ensures id !in s.artifacts ==> RetireLocked(s, id).1 == s
  {
    hide CanTransition;
  }

  lemma RebuiltStrandsNothing(s: State)
    ensures !Strands(s, s.(indexed := s.artifacts.Keys))
  {
  }

  /** After calls that all returned everything is indexed, so the next call is the first to lose
      an entry, and it does exactly when it fails part of the way. */
  lemma FirstGapIff(h: Bytes -> Digest, calls: seq<Call>, c: Call)
    requires AllReturn(h, calls)
    ensures Gaps(After(h, calls)) == {}
    ensures Gaps(Do(h, After(h, calls), c).1) != {} <==> FailsPartWay(h, After(h, calls), c)
  {
    hide After, AllReturn, WellFormed, Do, FailsPartWay, DependsOn;
    RunKeepsIndexed(h, calls);
    CallStrandsIff(h, After(h, calls), c);
  }
}
