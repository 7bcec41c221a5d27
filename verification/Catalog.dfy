/** The catalog as the program keeps it: maps, counters and indexes updated in place, call by
    call. Every method does exactly what the value model says, also when it throws. */
module Catalogs {
  import opened Types
  import opened Sorting
  import opened Lifecycle
  import opened Accounting
  import opened GraphModel
  import opened DependencyGraphs
  import opened DependencyDigests
  import opened Derivation
  import opened CatalogModel
  import opened CatalogEffects
  import opened Invalidation
  import opened CatalogIndex
  import opened Reuse
  import opened Compatibility
  import opened References
  import opened Persistence
  import opened CatalogImage
  import opened ImageFiles
  import Codec
  import DescriptorFormat
  import Ledger

  class Catalog {
    const hash: Bytes -> Digest

    var artifacts: map<Id, Descriptor>
    const graph: DependencyGraph
    var epoch: U64
    var boot: Id
    var nextGeneration: U64
    const indexes: Indexes
    var store: map<Digest, Content>
    const accounts: Accountant
    var successors: map<Id, seq<Id>>
    var predecessors: map<Id, seq<Id>>
    var quarantines: map<Id, seq<Quarantine>>
    var causes: map<Id, Bytes>

    /** The artifacts the indexes list at the moment. */
    ghost var indexed: set<Id>

    ghost function S(): State
      reads this, graph, accounts
    {
      State(artifacts, graph.G(), epoch, boot, nextGeneration, indexed, store, accounts.state,
            successors, predecessors, quarantines, causes)
    }

    ghost predicate Valid()
      reads this, graph, accounts, indexes
    {
      WellFormed(S()) && Reflects(indexes.entries, artifacts, indexed)
    }

    constructor (h: Bytes -> Digest)
      ensures Valid() && S() == NEW_CATALOG && hash == h
      ensures fresh(graph) && fresh(accounts) && fresh(indexes)
    {
      hash := h;
      artifacts, epoch, boot, nextGeneration, store := map[], 0, 0, 0, map[];
      successors, predecessors, quarantines, causes, indexed := map[], map[], map[], map[], {};
      graph := new DependencyGraph();
      accounts := new Accountant();
      indexes := new Indexes();
    }

    // ---- authority ----------------------------------------------------------------------

    method SetAuthority(newEpoch: U64, newBoot: Id)
      requires Valid()
      modifies this
      ensures Valid() && S() == Do(hash, old(S()), CatalogModel.SetAuthority(newEpoch, newBoot)).1
    {
      hide GraphModel.Valid;
      epoch, boot := newEpoch, newBoot;
    }

    method RollEpoch(newBoot: Id)
      requires Valid()
      modifies this
      ensures Valid() && S() == Do(hash, old(S()), CatalogModel.RollEpoch(newBoot)).1
    {
      hide GraphModel.Valid;
      epoch, boot := Up(epoch), newBoot;
    }

    // ---- lookups ------------------------------------------------------------------------

    /** `by_kind`, `by_model` and the other ten. Every identifier that is listed is catalogued
        and has the attribute now, after any calls whatsoever; and unless a call that threw left
        artifacts out of the indexes, none that has it is missing. */
    method Find(k: Key) returns (r: seq<Id>)
      requires Valid()
      ensures forall id :: id in r <==> k in indexes.entries && id in indexes.entries[k]
      ensures forall id :: id in r ==> id in artifacts && HasKey(artifacts[id], k)
      ensures indexed == artifacts.Keys ==> forall id :: id in artifacts && HasKey(artifacts[id], k) ==> id in r
      ensures r == Lookup(S(), k)
    {
      var v := if k in indexes.entries then indexes.entries[k] else [];
      forall id ensures id in v <==> id in indexed && HasKey(artifacts[id], k) {
        assert Listed(indexes.entries, k, id) <==> id in v;
      }
      LookupIs(S(), k, Collections.Elements(v));
      r := SortIds(Collections.Elements(v));
    }

    /** `remove_from_indexes` on the stored descriptor. */
    method Withdraw(id: Id)
      requires Valid() && id in artifacts
      modifies this`indexed, indexes
      ensures Valid() && S() == old(S()).(indexed := old(indexed) - {id})
    {
      hide WellFormed, Reflects;
      GraphOf(S());
      IdsMatch(S(), id);
      indexes.Remove(artifacts[id]);
      RemoveReflects(old(indexes.entries), indexes.entries, artifacts, indexed, id, artifacts[id]);
      assert artifacts[id := artifacts[id]] == artifacts;
      indexed := indexed - {id};
      StillWellFormed(old(S()), S());
    }

    /** `add_to_indexes` on the stored descriptor. */
    method Enlist(id: Id)
      requires WellFormed(S()) && id in artifacts
      modifies this`indexed, indexes
      ensures WellFormed(S()) && S() == old(S()).(indexed := old(indexed) + {id})
      ensures old(Valid()) && id !in old(indexed) ==> Valid()
    {
      hide WellFormed, Reflects;
      GraphOf(S());
      IdsMatch(S(), id);
      indexes.Add(artifacts[id]);
      assert artifacts[id := artifacts[id]] == artifacts;
      if Reflects(old(indexes.entries), artifacts, indexed) && id !in indexed {
        AddReflects(old(indexes.entries), indexes.entries, artifacts, indexed, artifacts[id]);
      }
      indexed := indexed + {id};
      StillWellFormed(old(S()), S());
    }

    /** The stored descriptor changes. While it is indexed, its entries stay those of the old
        descriptor. */
    method Put(d: Descriptor)
      requires Valid()
      modifies this`artifacts
      ensures WellFormed(S()) && S() == old(S()).(artifacts := old(artifacts)[d.id := d])
      ensures d.id !in indexed ==> Valid()
    {
      hide WellFormed, Reflects;
      ghost var m := artifacts;
      artifacts := artifacts[d.id := d];
      if d.id !in indexed { UnlistedReflects(indexes.entries, m, indexed, d.id, d); }
      GraphOf(old(S()));
      AddArtifact(old(S()), S(), d);
    }

    /** An artifact leaves the catalog. An indexed one stays listed. */
    method Forget(id: Id)
      requires Valid()
      modifies this`artifacts
      ensures S() == old(S()).(artifacts := old(artifacts) - {id})
      ensures id !in indexed ==> Valid()
    {
      hide WellFormed, Reflects;
      ghost var m := artifacts;
      artifacts := artifacts - {id};
      GraphOf(old(S()));
      if id !in indexed {
        UnlistedRemoval(indexes.entries, m, indexed, id);
        Forgotten(old(S()), S(), id);
      }
    }

    /** `rebuild_indexes`. */
    method Rebuild()
      requires Valid()
      modifies this`indexed, indexes
      ensures Valid() && S() == Do(hash, old(S()), RebuildIndexes).1
    {
      hide WellFormed, Reflects, GraphModel.Valid, Locked;
      indexes.Clear();
      indexed := {};
      NothingListed(artifacts);
      StillWellFormed(old(S()), S());
      var ids := SortIds(artifacts.Keys);
      for i := 0 to |ids|
        invariant Valid() && S() == old(S()).(indexed := Collections.Elements(ids[..i]))
      {
        assert ids[i] in ids && ids[i] !in ids[..i];
        Enlist(ids[i]);
        assert ids[..i + 1] == ids[..i] + [ids[i]];
        assert Collections.Elements(ids[..i + 1]) == Collections.Elements(ids[..i]) + {ids[i]};
      }
      assert ids[..|ids|] == ids;
      assert Collections.Elements(ids) == artifacts.Keys;
    }

    // ---- lifecycle calls ----------------------------------------------------------------

    /** Out of the indexes, the transition, into the indexes again. */
    method MoveTo(id: Id, d: Descriptor, to: LifecycleState) returns (r: Outcome<()>)
      requires Valid() && id in artifacts && d.id == id
      modifies this`artifacts, this`indexed, indexes
      ensures Valid() && (r, S()) == Move(old(S()), id, d, to)
    {
      hide WellFormed, Reflects, CanTransition;
      Withdraw(id);
      Put(d);
      var l :- ApplyTransition(d.lifecycle, to);
      Put(d.(lifecycle := l));
      Enlist(id);
      assert old(artifacts)[id := d][id := d.(lifecycle := to)] == old(artifacts)[id := d.(lifecycle := to)];
      assert old(indexed) - {id} + {id} == old(indexed) + {id};
      r := Returned(());
    }

    method Promote(id: Id, a: Authority) returns (r: Outcome<()>)
      requires Valid()
      modifies this, indexes
      ensures Valid() && (r, S()) == Do(hash, old(S()), CatalogModel.Promote(id, a))
    {
      hide WellFormed, Reflects, Do, Move;
      Fenced(hash, S(), CatalogModel.Promote(id, a));
      var _ :- Fence(epoch, boot, a);
      if id !in artifacts { return Threw(UnknownArtifact); }
      if StaleGeneration(a, artifacts[id].generation) { return Threw(StaleArtifactGeneration); }
      IdsMatch(S(), id);
      r := MoveTo(id, artifacts[id], ACTIVE);
    }

    method Validate(id: Id, report: Report, a: Authority) returns (r: Outcome<()>)
      requires Valid()
      modifies this, indexes
      ensures Valid() && (r, S()) == Do(hash, old(S()), CatalogModel.Validate(id, report, a))
    {
      hide WellFormed, Reflects, Do, Move;
      Fenced(hash, S(), CatalogModel.Validate(id, report, a));
      var _ :- Fence(epoch, boot, a);
      if id !in artifacts { return Threw(UnknownArtifact); }
      if StaleGeneration(a, artifacts[id].generation) { return Threw(StaleArtifactGeneration); }
      IdsMatch(S(), id);
      r := MoveTo(id, artifacts[id].(validation := report.state), if report.AllOk() then VALID else FAILED);
    }

    method SupersedeUnderLock(id: Id, successor: Id, a: Authority) returns (r: Outcome<()>)
      requires Valid()
      modifies this`artifacts, this`indexed, this`successors, this`predecessors, indexes, accounts
      ensures Valid() && (r, S()) == SupersedeLocked(old(S()), id, successor, a)
    {
      hide WellFormed, Reflects, Move, Push;
      if id !in artifacts { return Threw(UnknownArtifact); }
      if successor !in artifacts { return Threw(UnknownArtifact); }
      if artifacts[id].lifecycle == RETIRED || artifacts[id].lifecycle == EVICTED { return Threw(RetiredOrEvicted); }
      if StaleGeneration(a, artifacts[successor].generation) { return Threw(StaleArtifactGeneration); }
      IdsMatch(S(), id);
      r := MoveTo(id, artifacts[id], SUPERSEDED);
      if r.Threw? { return; }
      ghost var t := S();
      successors := Push(successors, id, successor);
      predecessors := Push(predecessors, successor, id);
      accounts.RecordSupersession();
      SameCore(t, S());
    }

    method Supersede(id: Id, successor: Id, a: Authority) returns (r: Outcome<()>)
      requires Valid()
      modifies this, indexes, accounts
      ensures Valid() && (r, S()) == Do(hash, old(S()), CatalogModel.Supersede(id, successor, a))
    {
      hide WellFormed, Reflects, Do, SupersedeLocked;
      Fenced(hash, S(), CatalogModel.Supersede(id, successor, a));
      var _ :- Fence(epoch, boot, a);
      r := SupersedeUnderLock(id, successor, a);
    }

    method SetAsideUnderLock(id: Id, record: Quarantine) returns (r: Outcome<()>)
      requires Valid()
      modifies this`artifacts, this`indexed, this`quarantines, indexes
      ensures Valid() && (r, S()) == QuarantineLocked(old(S()), id, record)
    {
      hide WellFormed, Reflects, Move, Push;
      if id !in artifacts { return Threw(UnknownArtifact); }
      IdsMatch(S(), id);
      r := MoveTo(id, artifacts[id].(validation := QUARANTINE), QUARANTINED);
      if r.Threw? { return; }
      ghost var t := S();
      quarantines := Push(quarantines, id, record);
      SameCore(t, S());
    }

    method SetAside(id: Id, record: Quarantine, a: Authority) returns (r: Outcome<()>)
      requires Valid()
      modifies this, indexes
      ensures Valid() && (r, S()) == Do(hash, old(S()), CatalogModel.SetAside(id, record, a))
    {
      hide WellFormed, Reflects, Do, QuarantineLocked;
      Fenced(hash, S(), CatalogModel.SetAside(id, record, a));
      var _ :- Fence(epoch, boot, a);
      r := SetAsideUnderLock(id, record);
    }

    // ---- register_artifact ---------------------------------------------------------------

    method RegisterUnderLock(desc: Descriptor) returns (r: Outcome<()>)
      requires Valid()
      modifies this`artifacts, this`nextGeneration, this`indexed, indexes
      ensures Valid() && (r, S()) == RegisterLocked(old(S()), desc)
    {
      hide WellFormed, Reflects, NextGeneration;
      if desc.id in artifacts { return Threw(DuplicateId); }
      if desc.generation != 0 && desc.generation >= nextGeneration {
        var next :- NextGeneration(desc.generation);
        nextGeneration := next;
        SameCore(old(S()), S());
      }
      GraphOf(S());
      Put(desc.(lifecycle := DECLARED, validation := UNVALIDATED));
      Enlist(desc.id);
      r := Returned(());
    }

    method Register(desc: Descriptor, a: Authority) returns (r: Outcome<()>, id: Id)
      requires Valid()
      modifies this, indexes
      ensures Valid() && (r, S()) == Do(hash, old(S()), CatalogModel.Register(desc, a))
      ensures id == desc.id
    {
      hide WellFormed, Reflects, Do, RegisterLocked;
      id := desc.id;
      Fenced(hash, S(), CatalogModel.Register(desc, a));
      r := Fence(epoch, boot, a);
      if r.Threw? { return; }
      r := RegisterUnderLock(desc);
    }

    // ---- publish -------------------------------------------------------------------------

    /** What `publish` fills in before it takes the lock. */
    method CompleteRequest(req: PublishRequest) returns (r: Outcome<Descriptor>)
      ensures r == Complete(hash, nextGeneration, req)
    {
      hide DeriveId;
      var d := req.descriptor.(contentDigest := hash(req.content));
      if d.producer == 0 { d := d.(producer := req.authority.producer); }
      if d.producerGeneration == 0 { d := d.(producerGeneration := req.authority.producerGeneration); }
      if d.id == 0 {
        var id :- ComputeId(hash, d);
        d := d.(id := id);
      }
      if d.generation == 0 { d := d.(generation := nextGeneration); }
      r := Returned(d);
    }

    method KeepContent(cd: Digest, content: Bytes, size: int) returns (r: Outcome<()>)
      requires Valid()
      modifies this`store, accounts
      ensures Valid() && (r, S()) == Keep(old(S()), cd, content, size)
    {
      hide WellFormed, Reflects;
      KeepSame(S(), cd, content, size);
      StoreKeeps(S(), Keep(S(), cd, content, size).1);
      if cd !in store {
        store := store[cd := Content(content, 1)];
        accounts.AddPhysicalBacking(1);
        r := accounts.AddPhysicalBytes(size);
      } else {
        store := store[cd := store[cd].(references := Up(store[cd].references))];
        r := Returned(());
        if store[cd].references > 1 { r := accounts.AddDedupBytes(size); }
      }
    }

    /** The edges of `id`, unknown dependencies becoming nodes first. */
    method LinkEdges(id: Id, deps: seq<DependencyRef>) returns (r: Outcome<()>)
      requires GraphModel.Valid(graph.G())
      modifies graph
      ensures GraphModel.Valid(graph.G()) && (r, graph.G()) == LinkAll(old(graph.G()), id, deps)
    {
      hide GraphModel.Valid, GraphModel.AddNode, GraphModel.AddEdge;
      ghost var g := graph.G();
      assert deps[0..] == deps;
      for i := 0 to |deps|
        invariant GraphModel.Valid(graph.G()) && LinkAll(g, id, deps) == LinkAll(graph.G(), id, deps[i..])
      {
        var dep := deps[i];
        if dep.artifact !in graph.nodes {
          AddNodeKeepsValid(graph.G(), dep.artifact);
          r := graph.AddNode(dep.artifact);
          if r.Threw? { return; }
        }
        AddEdgeKeepsValid(graph.G(), id, dep);
        r := graph.AddEdge(id, dep);
        if r.Threw? { return; }
      }
      r := Returned(());
    }

    /** The node and the edges of `id`. */
    method LinkArtifact(id: Id, deps: seq<DependencyRef>) returns (r: Outcome<()>)
      requires GraphModel.Valid(graph.G())
      modifies graph
      ensures GraphModel.Valid(graph.G()) && (r, graph.G()) == Link(old(graph.G()), id, deps)
    {
      hide GraphModel.Valid, GraphModel.AddNode, LinkAll;
      AddNodeKeepsValid(graph.G(), id);
      r := graph.AddNode(id);
      if r.Threw? { return; }
      r := LinkEdges(id, deps);
    }

    /** The dependency digest, the other two digests, and the states on the way. */
    method SignArtifact(d: Descriptor) returns (r: Outcome<Descriptor>)
      requires Valid() && d.id !in indexed
      modifies this`artifacts
      ensures Valid() && r == Sign(hash, graph.G(), d)
      ensures S() == old(S()).(artifacts :=
        old(artifacts)[d.id := if r.Returned? then r.value else Unsigned(hash, graph.G(), d)])
    {
      hide WellFormed, Reflects, Refresh, DigestInput;
      GraphOf(S());
      var fed := graph.DigestBytes(d.id);
      var e := d.(dependencyDigest := hash(fed), validation := INTEGRITY_OK, lifecycle := VALID);
      assert e == Unsigned(hash, graph.G(), d);
      Put(e);
      RefreshSame(hash, e);
      var refreshed :- RefreshDigests(hash, e);
      Put(refreshed);
      Put(refreshed.(lifecycle := PUBLISHED));
      AddTwice(old(artifacts), e, refreshed);
      AddTwice(old(artifacts), refreshed, refreshed.(lifecycle := PUBLISHED));
      r := Returned(refreshed.(lifecycle := PUBLISHED));
    }

    method ChargeFor(d: Descriptor) returns (r: Outcome<()>)
      requires Valid()
      modifies this`nextGeneration, accounts
      ensures Valid() && (r, S()) == Charge(old(S()), d)
    {
      hide WellFormed, Reflects, ToI64;
      ChargeSame(S(), d);
      StoreKeeps(S(), Charge(S(), d).1);
      accounts.AddLogicalArtifact(1);
      var _ :- accounts.AddLogicalBytes(ToI64(d.sizeBytes));
      var _ :- accounts.AddActiveReference(1);
      if nextGeneration <= d.generation {
        var next :- NextGeneration(d.generation);
        nextGeneration := next;
      }
      r := Returned(());
    }

    method EnterArtifact(d: Descriptor) returns (r: Outcome<()>)
      requires Valid() && d.id !in artifacts
      modifies this`artifacts, this`indexed, this`nextGeneration, graph, accounts, indexes
      ensures Valid() && (r, S()) == Enter(hash, old(S()), d)
    {
      hide WellFormed, Reflects, Link, Sign, Unsigned, Charge;
      GraphOf(S());
      Put(d);
      GraphOf(S());
      ghost var s1 := S();
      r := LinkArtifact(d.id, d.dependencies);
      Regraphed(s1, S());
      if r.Threw? { return; }
      UnsignedId(hash, graph.G(), d);
      var signed :- SignArtifact(d);
      r := ChargeFor(signed);
      if r.Threw? { return; }
      Enlist(d.id);
    }

    method PublishUnderLock(req: PublishRequest, d: Descriptor) returns (r: Outcome<()>)
      requires Valid()
      modifies this, graph, accounts, indexes
      ensures Valid() && (r, S()) == PublishLocked(hash, old(S()), req, d)
    {
      hide WellFormed, Reflects, Keep, Enter, ToI64;
      if d.id in artifacts { return Threw(DuplicateId); }
      if StaleGeneration(req.authority, d.generation) { return Threw(StaleArtifactGeneration); }
      var size := if d.sizeBytes != 0 then ToI64(d.sizeBytes) else |req.content|;
      var _ :- KeepContent(d.contentDigest, req.content, size);
      r := EnterArtifact(d.(lifecycle := BUILDING));
    }

    /** `publish`; the receipt is meaningful when the call returns normally. */
    method Publish(req: PublishRequest) returns (r: Outcome<()>, receipt: Receipt)
      requires Valid()
      modifies this, graph, accounts, indexes
      ensures Valid() && (r, S()) == Do(hash, old(S()), CatalogModel.Publish(req))
      ensures r.Returned? ==> var d := Complete(hash, old(nextGeneration), req);
        d.Returned? && receipt == Receipt(d.value.id, hash(req.content))
    {
      hide WellFormed, Reflects, Do, Complete, PublishLocked;
      receipt := Receipt(0, 0);
      Fenced(hash, S(), CatalogModel.Publish(req));
      r := Fence(epoch, boot, req.authority);
      if r.Threw? { return; }
      var completed := CompleteRequest(req);
      if completed.Threw? { return Threw(completed.error), receipt; }
      CompleteFields(hash, nextGeneration, req);
      r := PublishUnderLock(req, completed.value);
      receipt := Receipt(completed.value.id, completed.value.contentDigest);
    }

    // ---- retire --------------------------------------------------------------------------

    method DropContent(cd: Digest) returns (r: Outcome<()>)
      requires Valid()
      modifies this`store, accounts
      ensures Valid() && (r, S()) == Drop(old(S()), cd)
    {
      hide WellFormed, Reflects;
      DropSame(S(), cd);
      StoreKeeps(S(), Drop(S(), cd).1);
      if cd in store {
        store := store[cd := store[cd].(references := Down(store[cd].references))];
        if store[cd].references == 0 {
          accounts.AddPhysicalBacking(-1);
          var _ :- accounts.AddPhysicalBytes(-|store[cd].bytes|);
          store := store - {cd};
        }
      }
      r := Returned(());
    }

    method DischargeFor(d: Descriptor) returns (r: Outcome<()>)
      requires Valid()
      modifies accounts
      ensures Valid() && (r, S()) == Discharge(old(S()), d)
    {
      hide WellFormed, Reflects, ToI64;
      DischargeSame(S(), d);
      StoreKeeps(S(), Discharge(S(), d).1);
      accounts.AddLogicalArtifact(-1);
      var _ :- accounts.AddLogicalBytes(0 - ToI64(d.sizeBytes));
      var _ :- accounts.AddActiveReference(-1);
      r := Returned(());
    }

    method RetireUnderLock(id: Id) returns (r: Outcome<()>)
      requires Valid()
      modifies this`artifacts, this`indexed, this`store, accounts, indexes
      ensures Valid() && (r, S()) == RetireLocked(old(S()), id)
    {
      hide WellFormed, Reflects, Drop, Discharge, CanTransition;
      if id !in artifacts { return Threw(UnknownArtifact); }
      IdsMatch(S(), id);
      var d := artifacts[id];
      Withdraw(id);
      var l :- ApplyTransition(d.lifecycle, RETIRED);
      Put(d.(lifecycle := l));
      var _ :- DropContent(d.contentDigest);
      var _ :- DischargeFor(d);
      Enlist(id);
      assert old(indexed) - {id} + {id} == old(indexed) + {id};
      r := Returned(());
    }

    method Retire(id: Id, a: Authority) returns (r: Outcome<()>)
      requires Valid()
      modifies this, accounts, indexes
      ensures Valid() && (r, S()) == Do(hash, old(S()), CatalogModel.Retire(id, a))
    {
      hide WellFormed, Reflects, Do, RetireLocked;
      Fenced(hash, S(), CatalogModel.Retire(id, a));
      var _ :- Fence(epoch, boot, a);
      r := RetireUnderLock(id);
    }

    // ---- invalidate ----------------------------------------------------------------------

    method InvalidateOnly(id: Id, cause: Bytes) returns (r: Outcome<()>)
      requires Valid() && id in artifacts
      modifies this`artifacts, this`indexed, this`causes, indexes, accounts
      ensures Valid() && (r, S()) == InvalidateOne(old(S()), id, cause)
    {
      hide WellFormed, Reflects, Move;
      IdsMatch(S(), id);
      r := MoveTo(id, artifacts[id], INVALIDATED);
      if r.Threw? { return; }
      ghost var t := S();
      causes := causes[id := cause];
      accounts.RecordInvalidation();
      SameCore(t, S());
    }

    /** `invalidate_dependents`. */
    method InvalidateDependents(id: Id, cause: Bytes) returns (r: Outcome<()>)
      requires Valid()
      modifies this`artifacts, this`indexed, this`causes, indexes, accounts
      ensures Valid() && (r, S()) == InvalidateFrom(old(S()), id, cause)
      decreases |LiveSet(S())|, if Live(S(), id) then 0 else 2
    {
      hide WellFormed, Reflects, InvalidateOne, LiveSet, InvalidateFrom, InvalidateEach;
      GraphOf(S());
      FromUnfolds(S(), id, cause);
      if id in artifacts && !Settled(artifacts[id].lifecycle) {
        InvalidateOneSettles(S(), id, cause);
        r := InvalidateOnly(id, cause);
        if r.Threw? { return; }
      }
      ghost var s := S();
      var ids := graph.Dependents(id);
      assert ids[0..] == ids;
      for i := 0 to |ids|
        invariant Valid() && S().graph == s.graph && LiveSet(S()) <= LiveSet(s)
        invariant InvalidateEach(s, ids, cause) == InvalidateEach(S(), ids[i..], cause)
      {
        var dep := ids[i];
        EachUnfolds(S(), ids[i..], cause);
        assert ids[i..][0] == dep && ids[i..][1..] == ids[i + 1..];
        if dep in artifacts && !Settled(artifacts[dep].lifecycle) {
          Collections.SubsetSize(LiveSet(S()), LiveSet(s));
          r := InvalidateDependents(dep, cause);
          if r.Threw? { return; }
        }
      }
      EachUnfolds(S(), ids[|ids|..], cause);
      r := Returned(());
    }

    method Invalidate(id: Id, cause: Bytes, a: Authority) returns (r: Outcome<()>)
      requires Valid()
      modifies this, accounts, indexes
      ensures Valid() && (r, S()) == Do(hash, old(S()), CatalogModel.Invalidate(id, cause, a))
    {
      hide WellFormed, Reflects, Do, InvalidateFrom;
      Fenced(hash, S(), CatalogModel.Invalidate(id, cause, a));
      var _ :- Fence(epoch, boot, a);
      if id !in artifacts { return Threw(UnknownArtifact); }
      if StaleGeneration(a, artifacts[id].generation) { return Threw(StaleArtifactGeneration); }
      r := InvalidateDependents(id, cause);
    }

    // ---- queries -------------------------------------------------------------------------

    method ContentFor(id: Id) returns (r: Option<Bytes>)
      ensures r == ContentOf(S(), id)
    {
      if id !in artifacts { return None; }
      if artifacts[id].contentDigest !in store { return None; }
      r := Some(store[artifacts[id].contentDigest].bytes);
    }

    method CurrentAccounting() returns (c: Counters)
      ensures c == Ledger.Snapshot(S())
    {
      c := accounts.state.(dedupBytes := accounts.state.logicalBytes - accounts.state.physicalBytes);
    }

    /** `reuse`: whether the artifact may be reused, and why not. */
    method CheckReusable(id: Id, req: Requirement) returns (reusable: bool, failures: seq<Reason>)
      ensures reusable == ReusableIn(S(), id, req)
      ensures id in artifacts ==> failures == Failures(artifacts[id], req, InputsFor(artifacts, artifacts[id]))
    {
      if id !in artifacts { return false, []; }
      var d := artifacts[id];
      reusable, failures := CheckReuse(d, req, InputsFor(artifacts, d));
    }
  
    // ---- save and load -------------------------------------------------------------------

    method Save() returns (r: Outcome<Bytes>)
      ensures r == CatalogImage.Save(S())
    {
      hide ImageF, Savable, AllEncodable, AllFit;
      var ids := SortIds(artifacts.Keys);
      var cds := SortDigests(store.Keys);
      var keys := SortIds(successors.Keys);
      assert forall i :: 0 <= i < |ids| ==> ids[i] in ids;
      assert forall i :: 0 <= i < |cds| ==> cds[i] in cds;
      assert forall i :: 0 <= i < |keys| ==> keys[i] in keys;
      var ds, cs, ss := DescriptorsAt(artifacts, ids), ContentsAt(store, cds), SuccessorsAt(successors, keys);
      SavableIff(S());
      var v: Image := ((), ((), (epoch, (boot, (nextGeneration, (ds, (cs, ss)))))));
      assert v == ImageOf(S());
      var e := new Encoder();
      var _ :- WriteImage(e, v);
      assert [] + ImageF().put(v) == ImageF().put(v);
      var frame := e.Finalize();
      r := Returned(frame);
    }

    method Clear()
      requires Valid()
      modifies this, graph, indexes
      ensures Valid() && S() == Cleared(old(S())) && indexed == {}
    {
      hide WellFormed, Reflects;
      ClearedWellFormed(S());
      artifacts, store, successors, predecessors := map[], map[], map[], map[];
      quarantines, causes, indexed := map[], map[], {};
      graph.Clear();
      indexes.Clear();
      NothingListed(artifacts);
    }

    method RestoreAll(ds: seq<Descriptor>) returns (r: Outcome<()>)
      requires Valid() && indexed == {}
      modifies this`artifacts, graph
      ensures Valid() && (r, S()) == Restore(old(S()), ds)
    {
      hide WellFormed, Reflects, Restore;
      ghost var s := S();
      assert ds[0..] == ds;
      for i := 0 to |ds|
        invariant Valid() && indexed == {}
        invariant Restore(s, ds) == Restore(S(), ds[i..])
      {
        var d := ds[i];
        assert ds[i..][0] == d && ds[i..][1..] == ds[i + 1..];
        RestoreHead(S(), ds[i..]);
        if d.id in artifacts { return Threw(DuplicateId); }
        Put(d);
        ghost var before := S();
        GraphOf(before);
        r := LinkArtifact(d.id, d.dependencies);
        Regraphed(before, S());
        if r.Threw? { return; }
      }
      RestoreHead(S(), ds[|ds|..]);
      r := Returned(());
    }

    /** The content store, filled entry by entry. */
    method FillStore(cs: seq<StoredContent>)
      modifies this`store
      ensures store == StoreOf(cs)
    {
      store := map[];
      for i := 0 to |cs|
        invariant store == StoreOf(cs[..i])
      {
        assert cs[..i + 1][..i] == cs[..i];
        store := store[cs[i].0 := Content(cs[i].1.1, cs[i].1.0)];
      }
      assert cs[..|cs|] == cs;
    }

    method FillSuccessors(ss: seq<SuccessorList>)
      modifies this`successors
      ensures successors == SuccessorsOf(ss)
    {
      successors := map[];
      for i := 0 to |ss|
        invariant successors == SuccessorsOf(ss[..i])
      {
        assert ss[..i + 1][..i] == ss[..i];
        successors := successors[ss[i].0 := ss[i].1];
      }
      assert ss[..|ss|] == ss;
    }

    /** `k` becomes a predecessor of each of `vs`. */
    method Precede(k: Id, vs: seq<Id>)
      modifies this`predecessors
      ensures predecessors == PushAll(old(predecessors), k, vs)
    {
      ghost var m := predecessors;
      for j := 0 to |vs|
        invariant predecessors == PushAll(m, k, vs[..j])
      {
        assert vs[..j + 1][..j] == vs[..j];
        predecessors := Push(predecessors, vs[j], k);
      }
      assert vs[..|vs|] == vs;
    }

    method FillPredecessors()
      modifies this`predecessors
      ensures predecessors == Predecessors(successors)
    {
      hide PushAll;
      predecessors := map[];
      var keys := SortIds(successors.Keys);
      assert forall i :: 0 <= i < |keys| ==> keys[i] in keys;
      for i := 0 to |keys|
        invariant predecessors == Reversed(successors, keys[..i])
      {
        assert keys[..i + 1][..i] == keys[..i];
        Precede(keys[i], successors[keys[i]]);
      }
      assert keys[..|keys|] == keys;
    }

    method CountArtifacts() returns (bytes: int)
      requires accounts.state == NO_COUNTS
      modifies accounts
      ensures bytes == Ledger.Total(SignedSizes(artifacts))
      ensures accounts.state == NO_COUNTS.(logicalArtifacts := |artifacts|)
    {
      hide Ledger.Total, SignedSizes, Restricted, ToI64;
      bytes := 0;
      var ids := SortIds(artifacts.Keys);
      NoSizes(artifacts);
      for i := 0 to |ids|
        invariant bytes == Ledger.Total(SignedSizes(Restricted(artifacts, ids[..i])))
        invariant accounts.state == NO_COUNTS.(logicalArtifacts := i)
      {
        assert ids[i] in ids;
        SizesSnoc(artifacts, ids, i);
        bytes := bytes + ToI64(artifacts[ids[i]].sizeBytes);
        accounts.AddLogicalArtifact(1);
      }
      RestrictedToAll(artifacts, ids);
    }

    method CountContent(x: Content) returns (r: Outcome<()>)
      requires accounts.state.physicalBytes >= 0
      modifies accounts
      ensures (r, accounts.state) == TallyOne(old(accounts.state), x)
      ensures accounts.state.physicalBytes >= 0
    {
      hide ToI64;
      accounts.AddPhysicalBacking(1);
      var added := accounts.AddPhysicalBytes(|x.bytes|);
      assert added.Returned?;
      r := accounts.AddActiveReference(ToI64(x.references));
    }

    method CountContents() returns (r: Outcome<()>)
      requires accounts.state.physicalBytes >= 0
      modifies accounts
      ensures var cds := SortedDigests(store.Keys);
        (forall i :: 0 <= i < |cds| ==> cds[i] in store) && (r, accounts.state) == Tally(old(accounts.state), store, cds)
    {
      hide TallyOne;
      var cds := SortDigests(store.Keys);
      assert forall i :: 0 <= i < |cds| ==> cds[i] in cds;
      ghost var c := accounts.state;
      for i := 0 to |cds|
        invariant Tally(c, store, cds[..i]) == (Returned(()), accounts.state) && accounts.state.physicalBytes >= 0
      {
        assert cds[..i + 1][..i] == cds[..i];
        TallyStops(c, store, cds, i + 1);
        r := CountContent(store[cds[i]]);
        if r.Threw? { return; }
        UnitOutcome(r);
      }
      assert cds[..|cds|] == cds;
      r := Returned(());
    }

    /** The counters from scratch. */
    method CountAgain() returns (r: Outcome<()>)
      modifies accounts
      ensures (r, accounts.state) == Recount(artifacts, store)
    {
      hide Ledger.Total, SignedSizes, Tally;
      accounts.Reset();
      var bytes := CountArtifacts();
      var _ :- accounts.AddLogicalBytes(bytes);
      TallyDedup(accounts.state, store, SortedDigests(store.Keys));
      var _ :- CountContents();
      var saved := if bytes - accounts.state.physicalBytes > 0 then bytes - accounts.state.physicalBytes else 0;
      r := accounts.AddDedupBytes(saved);
    }

    method RebuildAndCount() returns (r: Outcome<()>)
      requires Valid()
      modifies this`indexed, accounts, indexes
      ensures Valid() && r == Recount(artifacts, store).0
      ensures S() == old(S()).(indexed := artifacts.Keys, counters := Recount(artifacts, store).1)
    {
      hide WellFormed, Reflects, Recount;
      Rebuild();
      ghost var u := S();
      r := CountAgain();
      SameCore(u, S());
    }

    /** Everything after the descriptors are restored. */
    method FinishLoad(newEpoch: U64, newBoot: Id, next: U64, cs: seq<StoredContent>, ss: seq<SuccessorList>)
      returns (r: Outcome<()>)
      requires Valid() && indexed == {}
      modifies this, accounts, indexes
      ensures Valid() && (r, S()) == Finish(old(S()), newEpoch, newBoot, next, cs, ss)
    {
      hide WellFormed, Reflects, Recount, StoreOf, SuccessorsOf, Predecessors;
      epoch, boot, nextGeneration := newEpoch, newBoot, next;
      FillStore(cs);
      FillSuccessors(ss);
      FillPredecessors();
      SameCore(old(S()), S());
      r := RebuildAndCount();
    }

    /** `load`. */
    method Load(image: Bytes) returns (r: Outcome<()>)
      requires Valid()
      modifies this, graph, accounts, indexes
      ensures Valid() && (r, S()) == CatalogImage.Load(old(S()), image)
    {
      hide WellFormed, Reflects, Restore, ImageF, Finish, Cleared;
      var v :- DecodeImage(image);
      var (_, (_, (newEpoch, (newBoot, (next, (ds, (cs, ss))))))) := v;
      ClearedWellFormed(S());
      Clear();
      r := RestoreAll(ds);
      if r.Threw? { return; }
      r := FinishLoad(newEpoch, newBoot, next, cs, ss);
    }
  }

  lemma SavableIff(s: State)
    ensures Savable(s) <==> AllEncodable(SavedDescriptors(s)) && AllFit(SavedContents(s))
  {
    hide DescriptorFormat.Encodable;
    var ids, cds := SortedIds(s.artifacts.Keys), SortedDigests(s.store.Keys);
    var ds, cs := SavedDescriptors(s), SavedContents(s);
    forall i | 0 <= i < |ds| ensures ds[i] == s.artifacts[ids[i]] { assert ids[i] in ids; }
    forall i | 0 <= i < |cs| ensures cs[i].1.1 == s.store[cds[i]].bytes { assert cds[i] in cds; }
    if AllEncodable(ds) {
      forall id | id in s.artifacts ensures DescriptorFormat.Encodable(s.artifacts[id]) {
        var i :| 0 <= i < |ids| && ids[i] == id;
        assert ds[i] == s.artifacts[id];
      }
    }
    if AllFit(cs) {
      forall cd | cd in s.store ensures |s.store[cd].bytes| <= Codec.MAX_FIELD {
        var i :| 0 <= i < |cds| && cds[i] == cd;
        assert cs[i].1.1 == s.store[cd].bytes;
      }
    }
  }

  function Restricted(m: map<Id, Descriptor>, ids: seq<Id>): map<Id, Descriptor> {
    map id | id in ids && id in m :: m[id]
  }

  lemma RestrictedToAll(m: map<Id, Descriptor>, ids: seq<Id>)
    requires forall id :: id in m ==> id in ids
    ensures Restricted(m, ids[..|ids|]) == m
  {
    assert ids[..|ids|] == ids;
  }

  lemma SizesSnoc(m: map<Id, Descriptor>, ids: seq<Id>, i: nat)
    requires i < |ids| && Ascending(ids) && ids[i] in m
    ensures Ledger.Total(SignedSizes(Restricted(m, ids[..i + 1]))) ==
            Ledger.Total(SignedSizes(Restricted(m, ids[..i]))) + ToI64(m[ids[i]].sizeBytes)
  {
    hide Ledger.Total, ToI64;
    var a, id := Restricted(m, ids[..i]), ids[i];
    assert id !in ids[..i];
    assert ids[..i + 1] == ids[..i] + [id];
    assert SignedSizes(Restricted(m, ids[..i + 1])) == SignedSizes(a)[id := ToI64(m[id].sizeBytes)];
    Ledger.TotalAdd(SignedSizes(a), id, ToI64(m[id].sizeBytes));
  }

  lemma NoSizes(m: map<Id, Descriptor>)
    ensures Ledger.Total(SignedSizes(Restricted(m, []))) == 0
  {
    assert SignedSizes(Restricted(m, [])) == map[];
  }

  /** Counting the contents leaves the deduplicated and logical bytes alone. */
  lemma {:induction false} TallyDedup(c: Counters, store: map<Digest, Content>, cds: seq<Digest>)
    requires forall i :: 0 <= i < |cds| ==> cds[i] in cds && cds[i] in store
    ensures var e := Tally(c, store, cds).1; e.dedupBytes == c.dedupBytes && e.logicalBytes == c.logicalBytes
  {
    if cds != [] {
      var init := cds[..|cds| - 1];
      TallyDedup(c, store, init);
      hide ToI64;
    }
  }

  /** A count that would turn negative stops the tally for good. */
  lemma {:induction false} TallyStops(c: Counters, store: map<Digest, Content>, cds: seq<Digest>, i: nat)
    requires i <= |cds| && forall j :: 0 <= j < |cds| ==> cds[j] in store
    ensures Tally(c, store, cds[..i]).0.Threw? ==> Tally(c, store, cds) == Tally(c, store, cds[..i])
    decreases |cds|
  {
    if i == |cds| {
      assert cds[..i] == cds;
    } else {
      var init := cds[..|cds| - 1];
      assert init[..i] == cds[..i];
      TallyStops(c, store, init, i);
    }
  }

  lemma RestoreHead(s: State, ds: seq<Descriptor>)
    requires WellFormed(s) && s.indexed == {}
    ensures Restore(s, ds) ==
      if ds == [] then (Returned(()), s)
      else if ds[0].id in s.artifacts then (Threw(DuplicateId), s)
      else (
        var d := ds[0];
        var (linked, g) := Link(s.graph, d.id, d.dependencies);
        var t := s.(artifacts := s.artifacts[d.id := d], graph := g);
        AddArtifact(s, t, d);
        if linked.Threw? then (linked, t) else Restore(t, ds[1..]))
  {
    hide Link;
  }

  /** A catalog whose graph was replaced by a valid one. */
  lemma Regraphed(s: State, t: State)
    requires WellFormed(s) && t == s.(graph := t.graph) && GraphModel.Valid(t.graph)
    ensures WellFormed(t)
  {
    hide GraphModel.Valid;
  }

  lemma LookupIs(s: State, k: Key, ids: set<Id>)
    requires WellFormed(s) && forall id :: id in ids <==> id in s.indexed && HasKey(s.artifacts[id], k)
    ensures Lookup(s, k) == SortedIds(ids)
  {
    assert ids == Hits(s, k);
  }

  /** A fenced call is its fence, then its locked part. */
  lemma Fenced(h: Bytes -> Digest, s: State, c: Call)
    requires WellFormed(s) && c.Mutates()
    ensures Do(h, s, c) == if Fence(s.epoch, s.boot, c.Envelope()).Threw?
                           then (Fence(s.epoch, s.boot, c.Envelope()), s) else Locked(h, s, c, s.nextGeneration)
  {
    hide GraphModel.Valid;
  }

  lemma Forgotten(s: State, t: State, id: Id)
    requires WellFormed(s) && t == s.(artifacts := s.artifacts - {id}) && id !in s.indexed
    ensures WellFormed(t)
  {
    hide GraphModel.Valid;
  }

  lemma StillWellFormed(s: State, t: State)
    requires WellFormed(s) && t == s.(indexed := t.indexed) && t.indexed <= s.artifacts.Keys
    ensures WellFormed(t)
  {
    hide GraphModel.Valid;
  }
}
