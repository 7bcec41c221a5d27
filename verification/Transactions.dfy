/** Publish transactions as the program runs them, on a shared catalog. */
module Transactions {
  import opened Types
  import opened GraphModel
  import opened DependencyDigests
  import opened Derivation
  import opened Accounting
  import opened CatalogModel
  import opened CatalogEffects
  import opened CatalogIndex
  import opened Catalogs
  import opened TransactionModel
  import opened TransactionRuns

  class PublishTransaction {
    const cat: Catalog
    var reservedId: Id
    var reservedBytes: nat

    constructor (catalog: Catalog)
      ensures cat == catalog && reservedId == 0 && reservedBytes == 0
    {
      cat, reservedId, reservedBytes := catalog, 0, 0;
    }

    method Reserve(req: PublishRequest) returns (r: Outcome<Id>)
      requires cat.Valid()
      modifies this, cat, cat.accounts
      ensures cat.Valid() && (r, cat.S()) == TransactionModel.Reserve(cat.hash, old(cat.S()), req)
      ensures r.Returned? ==> reservedId == r.value && reservedBytes == |req.content|
      ensures r.Threw? ==> reservedId == old(reservedId) && reservedBytes == old(reservedBytes)
    {
      hide WellFormed, Reflects, DeriveId, NextGeneration;
      ghost var s := cat.S();
      var _ :- Fence(cat.epoch, cat.boot, req.authority);
      var d := req.descriptor;
      if d.generation != 0 && d.generation >= cat.nextGeneration {
        var next :- NextGeneration(d.generation);
        cat.nextGeneration := next;
        SameCore(s, cat.S());
      }
      if d.id == 0 {
        var id :- ComputeId(cat.hash, d);
        d := d.(id := id);
      }
      if d.id in cat.artifacts { return Threw(DuplicateId); }
      GraphOf(cat.S());
      r := ReserveNew(d, |req.content|);
    }

    /** Under the lock, for an identifier that is free. */
    method ReserveNew(d: Descriptor, bytes: nat) returns (r: Outcome<Id>)
      requires cat.Valid() && d.id !in cat.artifacts && d.id !in cat.indexed
      modifies this, cat`artifacts, cat.accounts
      ensures cat.Valid() && (r, cat.S()) == ReserveAs(old(cat.S()), d, bytes)
      ensures r.Returned? ==> reservedId == d.id && reservedBytes == bytes
      ensures r.Threw? ==> reservedId == old(reservedId) && reservedBytes == old(reservedBytes)
    {
      hide WellFormed, Reflects;
      ghost var s := cat.S();
      cat.accounts.ReserveBuild();
      var added := cat.accounts.AddTemporaryBytes(bytes);
      SameCore(s, cat.S());
      if added.Threw? { return Threw(added.error); }
      cat.Put(d.(lifecycle := BUILDING));
      reservedId, reservedBytes := d.id, bytes;
      r := Returned(d.id);
    }

    /** Like the calls below, it does not look at the indexes: on an artifact that is indexed
        already, which no reserved one is before its `commit`, the entries become stale. */
    method Produce(id: Id, content: Bytes, a: Authority) returns (r: Outcome<()>)
      requires cat.Valid()
      modifies this, cat
      ensures id !in old(cat.indexed) ==> cat.Valid()
      ensures (r, cat.S()) == TransactionModel.Produce(cat.hash, old(cat.S()), id, content, a)
      ensures reservedBytes == if r.Returned? then |content| else old(reservedBytes)
      ensures reservedId == old(reservedId)
    {
      hide WellFormed, Reflects;
      ghost var s := cat.S();
      var _ :- Fence(cat.epoch, cat.boot, a);
      if id !in cat.artifacts { return Threw(UnknownArtifact); }
      IdsMatch(s, id);
      var cd := cat.hash(content);
      cat.Put(cat.artifacts[id].(contentDigest := cd, lifecycle := VALIDATING));
      ghost var t := cat.S();
      if cd !in cat.store {
        cat.store := cat.store[cd := Content(content, 1)];
      } else {
        cat.store := cat.store[cd := cat.store[cd].(references := Up(cat.store[cd].references))];
      }
      SameCore(t, cat.S());
      reservedBytes := |content|;
      r := Returned(());
    }

    method ValidatePublish(id: Id, report: Report, a: Authority) returns (r: Outcome<()>)
      requires cat.Valid()
      modifies cat
      ensures id !in old(cat.indexed) ==> cat.Valid()
      ensures (r, cat.S()) == TransactionModel.ValidatePublish(old(cat.S()), id, report, a)
    {
      hide WellFormed, Reflects;
      var _ :- Fence(cat.epoch, cat.boot, a);
      if id !in cat.artifacts { return Threw(UnknownArtifact); }
      IdsMatch(cat.S(), id);
      cat.Put(cat.artifacts[id].(validation := report.state, lifecycle := if report.AllOk() then VALID else FAILED));
      r := Returned(());
    }

    /** The edges of `id`, which may be a node already. */
    method Link(id: Id, deps: seq<DependencyRef>) returns (r: Outcome<()>)
      requires GraphModel.Valid(cat.graph.G())
      modifies cat.graph
      ensures GraphModel.Valid(cat.graph.G()) && (r, cat.graph.G()) == LinkLate(old(cat.graph.G()), id, deps)
    {
      hide GraphModel.Valid, GraphModel.AddNode;
      AddNodeKeepsValid(cat.graph.G(), id);
      if id !in cat.graph.nodes {
        r := cat.graph.AddNode(id);
        if r.Threw? { return; }
      }
      r := cat.LinkEdges(id, deps);
    }

    method VerifyDependencies(id: Id, a: Authority) returns (r: Outcome<()>)
      requires cat.Valid()
      modifies cat, cat.graph
      ensures id !in old(cat.indexed) ==> cat.Valid()
      ensures GraphModel.Valid(old(cat.S()).graph)
      ensures (r, cat.S()) == TransactionModel.VerifyDependencies(cat.hash, old(cat.S()), id, a)
    {
      hide WellFormed, Reflects, LinkLate, GraphModel.Valid, DigestInput;
      ghost var s := cat.S();
      GraphOf(s);
      var _ :- Fence(cat.epoch, cat.boot, a);
      if id !in cat.artifacts { return Threw(UnknownArtifact); }
      IdsMatch(s, id);
      var d := cat.artifacts[id];
      var _ :- LinkFor(d, s);
      var fed := cat.graph.DigestBytes(id);
      cat.Put(d.(dependencyDigest := cat.hash(fed)));
      r := Returned(());
    }

    /** The graph part, with the catalog still well formed whatever happens. */
    method LinkFor(d: Descriptor, ghost s: State) returns (r: Outcome<()>)
      requires cat.Valid() && s == cat.S() && GraphModel.Valid(s.graph)
      modifies cat.graph
      ensures cat.Valid() && GraphModel.Valid(cat.graph.G())
      ensures (r, cat.graph.G()) == LinkLate(s.graph, d.id, d.dependencies)
    {
      hide WellFormed, Reflects, LinkLate, GraphModel.Valid;
      r := Link(d.id, d.dependencies);
      Regraphed(s, cat.S());
    }

    /** The reservation is given back. */
    method GiveBack() returns (r: Outcome<()>)
      modifies cat.accounts
      ensures (r, cat.accounts.state) == Release(old(cat.accounts.state), reservedBytes)
    {
      var _ :- cat.accounts.ReleaseBuild();
      r := cat.accounts.AddTemporaryBytes(0 - reservedBytes);
    }

    method Charge(size: int) returns (r: Outcome<()>)
      modifies cat.accounts
      ensures (r, cat.accounts.state) == CommitCharge(old(cat.accounts.state), size)
    {
      cat.accounts.AddLogicalArtifact(1);
      var _ :- cat.accounts.AddLogicalBytes(size);
      var _ :- cat.accounts.AddActiveReference(1);
      cat.accounts.AddPhysicalBacking(1);
      r := cat.accounts.AddPhysicalBytes(size);
    }

    method Settle(size: int, ghost s: State) returns (r: Outcome<()>)
      requires WellFormed(cat.S()) && s == cat.S()
      modifies cat.accounts
      ensures WellFormed(cat.S()) && (old(cat.Valid()) ==> cat.Valid())
      ensures var (released, c) := Release(s.counters, reservedBytes);
        (r, cat.accounts.state) == if released.Threw? then (released, c) else CommitCharge(c, size)
    {
      hide WellFormed, Reflects, Release, CommitCharge;
      r := GiveBack();
      if r.Returned? { r := Charge(size); }
      SameCore(s, cat.S());
    }

    method Commit(id: Id, a: Authority) returns (r: Outcome<()>)
      requires cat.Valid()
      modifies cat, cat.accounts, cat.indexes
      ensures id !in old(cat.indexed) ==> cat.Valid()
      ensures (r, cat.S()) == TransactionModel.Commit(old(cat.S()), id, reservedBytes, a)
    {
      hide WellFormed, Reflects, Release, CommitCharge, ToI64;
      var _ :- Fence(cat.epoch, cat.boot, a);
      if id !in cat.artifacts { return Threw(UnknownArtifact); }
      IdsMatch(cat.S(), id);
      cat.Put(cat.artifacts[id].(lifecycle := PUBLISHED));
      var size := CommittedSize(cat.artifacts[id], reservedBytes);
      r := Settle(size, cat.S());
      if r.Threw? { return; }
      cat.Enlist(id);
    }

    method Abort(id: Id) returns (r: Outcome<()>)
      requires cat.Valid()
      modifies cat, cat.accounts
      ensures id !in old(cat.indexed) ==> cat.Valid()
      ensures (r, cat.S()) == TransactionModel.Abort(old(cat.S()), id, reservedBytes)
    {
      hide WellFormed, Reflects, Release;
      if id in cat.artifacts { DropAndForget(id); }
      ghost var s := cat.S();
      r := GiveBack();
      if id !in cat.indexed { SameCore(s, cat.S()); }
    }

    method DropAndForget(id: Id)
      requires cat.Valid() && id in cat.artifacts
      modifies cat`artifacts, cat`store
      ensures id !in cat.indexed ==> cat.Valid()
      ensures cat.S() == old(cat.S()).(artifacts := old(cat.artifacts) - {id},
                                       store := Released(old(cat.store), old(cat.artifacts)[id].contentDigest))
    {
      hide WellFormed, Reflects;
      ghost var s := cat.S();
      var cd := cat.artifacts[id].contentDigest;
      if cd in cat.store {
        var left := Down(cat.store[cd].references);
        if left == 0 {
          cat.store := cat.store - {cd};
        } else {
          cat.store := cat.store[cd := cat.store[cd].(references := left)];
        }
      }
      SameCore(s, cat.S());
      cat.Forget(id);
    }
  }
}
