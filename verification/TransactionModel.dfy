/** Publish transactions, step by step, on the catalog as a value. */
module TransactionModel {
  import opened Types
  import opened Accounting
  import opened GraphModel
  import opened DependencyDigests
  import opened Derivation
  import opened CatalogModel
  import opened CatalogEffects

  /** `reserve`: the artifact is entered unindexed, under the digest its descriptor claims. */
  function Reserve(h: Bytes -> Digest, s: State, req: PublishRequest): (Outcome<Id>, State) {
    var fenced := Fence(s.epoch, s.boot, req.authority);
    if fenced.Threw? then (Threw(fenced.error), s)
    else
      var d := req.descriptor;
      var bump := d.generation != 0 && d.generation >= s.nextGeneration;
      var next := if bump then NextGeneration(d.generation) else Returned(s.nextGeneration);
      if next.Threw? then (Threw(next.error), s)
      else
        var s1 := s.(nextGeneration := next.value);
        var id := if d.id == 0 then DeriveId(h, d) else Returned(d.id);
        if id.Threw? then (id, s1) else ReserveAs(s1, d.(id := id.value), |req.content|)
  }

  function ReserveAs(s: State, d: Descriptor, bytes: nat): (Outcome<Id>, State) {
    if d.id in s.artifacts then (Threw(DuplicateId), s)
    else
      var c := s.counters.(buildReservations := s.counters.buildReservations + 1);
      if c.temporaryBytes + bytes < 0 then (Threw(NegativeCounter), s.(counters := c))
      else
        (Returned(d.id), s.(counters := c.(temporaryBytes := c.temporaryBytes + bytes),
                            artifacts := s.artifacts[d.id := d.(lifecycle := BUILDING)]))
  }

  /** `produce`: one more reference to the content, and the artifact gets its real digest. */
  function Produce(h: Bytes -> Digest, s: State, id: Id, content: Bytes, a: Authority): Step {
    var fenced := Fence(s.epoch, s.boot, a);
    if fenced.Threw? then (fenced, s)
    else if id !in s.artifacts then (Threw(UnknownArtifact), s)
    else
      var d := s.artifacts[id].(contentDigest := h(content), lifecycle := VALIDATING);
      (Returned(()), s.(artifacts := s.artifacts[id := d], store := Stored(s.store, h(content), content)))
  }

  /** `validate_publish`: any report is taken, whatever the state was. */
  function ValidatePublish(s: State, id: Id, report: Report, a: Authority): Step {
    var fenced := Fence(s.epoch, s.boot, a);
    if fenced.Threw? then (fenced, s)
    else if id !in s.artifacts then (Threw(UnknownArtifact), s)
    else
      var d := s.artifacts[id].(validation := report.state, lifecycle := if report.AllOk() then VALID else FAILED);
      (Returned(()), s.(artifacts := s.artifacts[id := d]))
  }

  ghost function LinkLate(g: Graph, id: Id, deps: seq<DependencyRef>): (r: (Outcome<()>, Graph))
    requires Valid(g)
    ensures Valid(r.1)
  {
    AddNodeKeepsValid(g, id);
    var (noted, g1) := if id in g.nodes then (Returned(()), g) else AddNode(g, id);
    if noted.Threw? then (noted, g1) else LinkAll(g1, id, deps)
  }

  /** `verify_dependencies`. */
  ghost function VerifyDependencies(h: Bytes -> Digest, s: State, id: Id, a: Authority): Step
    requires Valid(s.graph)
  {
    var fenced := Fence(s.epoch, s.boot, a);
    if fenced.Threw? then (fenced, s)
    else if id !in s.artifacts then (Threw(UnknownArtifact), s)
    else
      var (linked, g) := LinkLate(s.graph, id, s.artifacts[id].dependencies);
      if linked.Threw? then (linked, s.(graph := g))
      else
        var d := s.artifacts[id].(dependencyDigest := h(DigestInput(g, id)));
        (Returned(()), s.(graph := g, artifacts := s.artifacts[id := d]))
  }

  function CommittedSize(d: Descriptor, reservedBytes: nat): int {
    if d.sizeBytes != 0 then ToI64(d.sizeBytes) else reservedBytes
  }

  /** The reservation is given back. */
  function Release(c: Counters, reservedBytes: nat): (Outcome<()>, Counters) {
    if c.buildReservations <= 0 then (Threw(NoReservation), c)
    else
      var b := c.(buildReservations := c.buildReservations - 1);
      if b.temporaryBytes - reservedBytes < 0 then (Threw(NegativeCounter), b)
      else (Returned(()), b.(temporaryBytes := b.temporaryBytes - reservedBytes))
  }

  /** Backing and physical bytes are counted even when the content is shared. */
  function CommitCharge(c: Counters, size: int): (Outcome<()>, Counters) {
    var c1 := c.(logicalArtifacts := c.logicalArtifacts + 1);
    if c1.logicalBytes + size < 0 then (Threw(NegativeCounter), c1)
    else
      var c2 := c1.(logicalBytes := c1.logicalBytes + size);
      if c2.activeReferences + 1 < 0 then (Threw(NegativeCounter), c2)
      else
        var c3 := c2.(activeReferences := c2.activeReferences + 1, physicalBacking := c2.physicalBacking + 1);
        if c3.physicalBytes + size < 0 then (Threw(NegativeCounter), c3)
        else (Returned(()), c3.(physicalBytes := c3.physicalBytes + size))
  }

  /** `commit`. */
  function Commit(s: State, id: Id, reservedBytes: nat, a: Authority): Step {
    var fenced := Fence(s.epoch, s.boot, a);
    if fenced.Threw? then (fenced, s)
    else if id !in s.artifacts then (Threw(UnknownArtifact), s)
    else
      var d := s.artifacts[id].(lifecycle := PUBLISHED);
      var s1 := s.(artifacts := s.artifacts[id := d]);
      var (released, c) := Release(s.counters, reservedBytes);
      if released.Threw? then (released, s1.(counters := c))
      else
        var (charged, e) := CommitCharge(c, CommittedSize(d, reservedBytes));
        if charged.Threw? then (charged, s1.(counters := e))
        else (charged, s1.(counters := e, indexed := s.indexed + {id}))
  }

  /** `abort`: a reference to whatever digest the artifact has at that moment is given up, if
      that digest is stored at all. It is not fenced. */
  function Abort(s: State, id: Id, reservedBytes: nat): Step {
    var s1 := if id in s.artifacts
      then s.(store := Released(s.store, s.artifacts[id].contentDigest), artifacts := s.artifacts - {id})
      else s;
    var (released, c) := Release(s1.counters, reservedBytes);
    (released, s1.(counters := c))
  }
}
