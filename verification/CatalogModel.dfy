/** The catalog as a value: what every call returns or throws, and the state it leaves behind,
    also when it throws half-way. SHA-256 is the parameter `h`. */
module CatalogModel {
  import opened Types
  import opened Sorting
  import opened Lifecycle
  import opened Accounting
  import opened GraphModel
  import opened DependencyDigests
  import opened Derivation

  /** A stored content and the number of references to it. */
  datatype Content = Content(bytes: Bytes, references: U64)

  datatype Quarantine = Quarantine(reason: nat, source: Bytes, timestampNs: I64, detail: Bytes)

  /** A validation report: its overall state, and which checks passed. */
  datatype Report = Report(state: ValidationState, checks: seq<bool>) {
    predicate AllOk() {
      (forall i :: 0 <= i < |checks| ==> checks[i]) && (state == VALIDATED || state == INTEGRITY_OK)
    }
  }

  datatype PublishRequest = PublishRequest(descriptor: Descriptor, content: Bytes, authority: Authority)

  datatype Receipt = Receipt(id: Id, contentDigest: Digest)

  /** `indexed` is the set of artifacts the secondary indexes currently list. */
  datatype State = State(
    artifacts: map<Id, Descriptor>, graph: Graph, epoch: U64, boot: Id, nextGeneration: U64,
    indexed: set<Id>, store: map<Digest, Content>, counters: Counters,
    successors: map<Id, seq<Id>>, predecessors: map<Id, seq<Id>>,
    quarantines: map<Id, seq<Quarantine>>, causes: map<Id, Bytes>)

  ghost predicate WellFormed(s: State) {
    && Valid(s.graph)
    && s.indexed <= s.artifacts.Keys
    && (forall id :: id in s.artifacts ==> s.artifacts[id].id == id)
  }

  const NEW_CATALOG :=
    State(map[], EMPTY, 0, 0, 0, {}, map[], NO_COUNTS, map[], map[], map[], map[])

  type Step = (Outcome<()>, State)

  // ---- secondary indexes ----------------------------------------------------------------

  /** The attributes an artifact is indexed by, one constructor for each index. */
  datatype Key =
    | ContentKey(digest: Digest) | KindKey(kind: ArtifactKind) | ProducerKey(producer: Id)
    | ModelKey(model: Id) | AdapterKey(adapter: Id) | RuntimeKey(runtime: Id) | ToolchainKey(toolchain: Id)
    | ArchitectureKey(architecture: Bytes) | LifecycleKey(lifecycle: LifecycleState)
    | ValidationKey(validation: ValidationState) | ProvenanceKey(provenance: Id) | GenerationKey(generation: U64)

  predicate HasKey(d: Descriptor, k: Key) {
    match k
    case ContentKey(x) => d.contentDigest == x
    case KindKey(x) => d.kind == x
    case ProducerKey(x) => d.producer == x
    case ModelKey(x) => d.model == Some(x)
    case AdapterKey(x) => d.adapter == Some(x)
    case RuntimeKey(x) => d.runtime == Some(x)
    case ToolchainKey(x) => d.toolchain == Some(x)
    case ArchitectureKey(x) => d.architecture != [] && d.architecture == x
    case LifecycleKey(x) => d.lifecycle == x
    case ValidationKey(x) => d.validation == x
    case ProvenanceKey(x) => d.provenance != 0 && d.provenance == x
    case GenerationKey(x) => d.generation == x
  }

  function Hits(s: State, k: Key): set<Id>
    requires s.indexed <= s.artifacts.Keys
  {
    set id | id in s.indexed && HasKey(s.artifacts[id], k)
  }

  function Matches(m: map<Id, Descriptor>, k: Key): set<Id> {
    set id | id in m && HasKey(m[id], k)
  }

  /** What an index lookup returns. */
  ghost function Lookup(s: State, k: Key): seq<Id>
    requires WellFormed(s)
  {
    SortedIds(Hits(s, k))
  }

  /** What a scan of all artifacts returns. */
  ghost function Scan(s: State, k: Key): seq<Id> {
    SortedIds(Matches(s.artifacts, k))
  }

  // ---- authority ------------------------------------------------------------------------

  /** `fence`: the epoch is checked before the boot identifier. */
  function Fence(epoch: U64, boot: Id, a: Authority): Outcome<()> {
    if a.epoch != epoch then Threw(StaleEpoch)
    else if a.boot != boot then Threw(StaleBoot)
    else Returned(())
  }

  predicate StaleGeneration(a: Authority, g: U64) {
    a.artifactGeneration != 0 && a.artifactGeneration < g
  }

  /** `Generation::next`. */
  function NextGeneration(g: U64): Outcome<U64> {
    if g == U64_MAX then Threw(GenerationOverflow) else Returned(g + 1)
  }

  // ---- register_artifact ----------------------------------------------------------------

  function RegisterLocked(s: State, desc: Descriptor): Step {
    if desc.id in s.artifacts then (Threw(DuplicateId), s)
    else
      var bump := desc.generation != 0 && desc.generation >= s.nextGeneration;
      var next := if bump then NextGeneration(desc.generation) else Returned(s.nextGeneration);
      match next
      case Threw(e) => (Threw(e), s)
      case Returned(g) =>
        var d := desc.(lifecycle := DECLARED, validation := UNVALIDATED);
        (Returned(()), s.(nextGeneration := g, artifacts := s.artifacts[d.id := d], indexed := s.indexed + {d.id}))
  }

  // ---- publish --------------------------------------------------------------------------

  /** What `publish` fills in before it takes the lock. */
  function Complete(h: Bytes -> Digest, next: U64, req: PublishRequest): Outcome<Descriptor> {
    var a := req.authority;
    var d0 := req.descriptor.(contentDigest := h(req.content));
    var d1 := if d0.producer == 0 then d0.(producer := a.producer) else d0;
    var d2 := if d1.producerGeneration == 0 then d1.(producerGeneration := a.producerGeneration) else d1;
    var id :- if d2.id == 0 then DeriveId(h, d2) else Returned(d2.id);
    Returned(d2.(id := id, generation := if d2.generation == 0 then next else d2.generation))
  }

  /** The size that is charged for a content. */
  function ChargedSize(d: Descriptor, content: Bytes): int {
    if d.sizeBytes != 0 then ToI64(d.sizeBytes) else |content|
  }

  /** A reference count is a 64-bit number that wraps around. */
  function Up(n: U64): U64 { if n == U64_MAX then 0 else n + 1 }
  function Down(n: U64): U64 { if n == 0 then U64_MAX else n - 1 }

  /** A content is stored, or its reference count goes up. */
  function Keep(s: State, cd: Digest, content: Bytes, size: int): Step {
    if cd !in s.store then
      var t := s.(store := s.store[cd := Content(content, 1)],
                  counters := s.counters.(physicalBacking := s.counters.physicalBacking + 1));
      if s.counters.physicalBytes + size < 0 then (Threw(NegativeCounter), t)
      else (Returned(()), t.(counters := t.counters.(physicalBytes := t.counters.physicalBytes + size)))
    else
      var n := Up(s.store[cd].references);
      var t := s.(store := s.store[cd := s.store[cd].(references := n)]);
      if n <= 1 then (Returned(()), t)
      else if s.counters.dedupBytes + size < 0 then (Threw(NegativeCounter), t)
      else (Returned(()), t.(counters := t.counters.(dedupBytes := t.counters.dedupBytes + size)))
  }

  /** The edges of `id` are added one by one, unknown dependencies becoming nodes first. */
  ghost function LinkAll(g: Graph, id: Id, deps: seq<DependencyRef>): (r: (Outcome<()>, Graph))
    requires Valid(g)
    ensures Valid(r.1)
    decreases |deps|
  {
    if deps == [] then (Returned(()), g)
    else
      AddNodeKeepsValid(g, deps[0].artifact);
      var (noted, g1) := if deps[0].artifact in g.nodes then (Returned(()), g) else AddNode(g, deps[0].artifact);
      if noted.Threw? then (noted, g1)
      else
        AddEdgeKeepsValid(g1, id, deps[0]);
        var (linked, g2) := AddEdge(g1, id, deps[0]);
        if linked.Threw? then (linked, g2) else LinkAll(g2, id, deps[1..])
  }

  ghost function Link(g: Graph, id: Id, deps: seq<DependencyRef>): (r: (Outcome<()>, Graph))
    requires Valid(g)
    ensures Valid(r.1)
  {
    AddNodeKeepsValid(g, id);
    var (noted, g1) := AddNode(g, id);
    if noted.Threw? then (noted, g1) else LinkAll(g1, id, deps)
  }

  /** The descriptor after its digests are computed, or the exception that leaves `Unsigned`. */
  ghost function Sign(h: Bytes -> Digest, g: Graph, d: Descriptor): Outcome<Descriptor>
    requires Valid(g)
  {
    var signed :- Refresh(h, Unsigned(h, g, d));
    Returned(signed.(lifecycle := PUBLISHED))
  }

  ghost function Unsigned(h: Bytes -> Digest, g: Graph, d: Descriptor): Descriptor
    requires Valid(g)
  {
    d.(dependencyDigest := h(DigestInput(g, d.id)), validation := INTEGRITY_OK, lifecycle := VALID)
  }

  /** The counters and the next generation, after everything else. */
  function Charge(s: State, d: Descriptor): Step {
    var c := s.counters.(logicalArtifacts := s.counters.logicalArtifacts + 1);
    if c.logicalBytes + ToI64(d.sizeBytes) < 0 then (Threw(NegativeCounter), s.(counters := c))
    else
      var c2 := c.(logicalBytes := c.logicalBytes + ToI64(d.sizeBytes));
      if c2.activeReferences + 1 < 0 then (Threw(NegativeCounter), s.(counters := c2))
      else
        var t := s.(counters := c2.(activeReferences := c2.activeReferences + 1));
        if s.nextGeneration > d.generation then (Returned(()), t)
        else
          match NextGeneration(d.generation)
          case Threw(e) => (Threw(e), t)
          case Returned(g) => (Returned(()), t.(nextGeneration := g))
  }

  /** The artifact is entered, linked, signed and charged for; only then is it indexed. */
  ghost function Enter(h: Bytes -> Digest, s: State, d: Descriptor): Step
    requires WellFormed(s)
  {
    var s1 := s.(artifacts := s.artifacts[d.id := d]);
    var (linked, g) := Link(s1.graph, d.id, d.dependencies);
    var s2 := s1.(graph := g);
    if linked.Threw? then (linked, s2)
    else
      match Sign(h, g, d)
      case Threw(e) => (Threw(e), s2.(artifacts := s2.artifacts[d.id := Unsigned(h, g, d)]))
      case Returned(signed) =>
        var (charged, s3) := Charge(s2.(artifacts := s2.artifacts[d.id := signed]), signed);
        if charged.Threw? then (charged, s3) else (charged, s3.(indexed := s3.indexed + {d.id}))
  }

  /** The checks made before anything changes. */
  function Admit(s: State, a: Authority, d: Descriptor): Outcome<()> {
    if d.id in s.artifacts then Threw(DuplicateId)
    else if StaleGeneration(a, d.generation) then Threw(StaleArtifactGeneration)
    else Returned(())
  }

  /** The part of `publish` that runs under the lock, on the completed descriptor. */
  ghost function PublishLocked(h: Bytes -> Digest, s: State, req: PublishRequest, d: Descriptor): Step
    requires WellFormed(s)
  {
    var admitted := Admit(s, req.authority, d);
    if admitted.Threw? then (admitted, s)
    else
      var (kept, s1) := Keep(s, d.contentDigest, req.content, ChargedSize(d, req.content));
      if kept.Threw? then (kept, s1) else Enter(h, s1, d.(lifecycle := BUILDING))
  }

  // ---- lifecycle calls ------------------------------------------------------------------

  /** The artifact leaves the indexes, moves, and is indexed again; an illegal move leaves it
      out of the indexes. */
  function Move(s: State, id: Id, d: Descriptor, to: LifecycleState): Step
    requires id in s.artifacts
  {
    if CanTransition(d.lifecycle, to) then
      (Returned(()), s.(artifacts := s.artifacts[id := d.(lifecycle := to)], indexed := s.indexed + {id}))
    else
      (Threw(IllegalTransition), s.(artifacts := s.artifacts[id := d], indexed := s.indexed - {id}))
  }

  function ValidateLocked(s: State, id: Id, report: Report, a: Authority): Step {
    if id !in s.artifacts then (Threw(UnknownArtifact), s)
    else if StaleGeneration(a, s.artifacts[id].generation) then (Threw(StaleArtifactGeneration), s)
    else Move(s, id, s.artifacts[id].(validation := report.state), if report.AllOk() then VALID else FAILED)
  }

  function PromoteLocked(s: State, id: Id, a: Authority): Step {
    if id !in s.artifacts then (Threw(UnknownArtifact), s)
    else if StaleGeneration(a, s.artifacts[id].generation) then (Threw(StaleArtifactGeneration), s)
    else Move(s, id, s.artifacts[id], ACTIVE)
  }

  /** `operator[]` and `push_back`. */
  function Push<V>(m: map<Id, seq<V>>, k: Id, v: V): map<Id, seq<V>> {
    m[k := (if k in m then m[k] else []) + [v]]
  }

  function SupersedeLocked(s: State, replaced: Id, successor: Id, a: Authority): Step {
    if replaced !in s.artifacts || successor !in s.artifacts then (Threw(UnknownArtifact), s)
    else if s.artifacts[replaced].lifecycle == RETIRED || s.artifacts[replaced].lifecycle == EVICTED then
      (Threw(RetiredOrEvicted), s)
    else if StaleGeneration(a, s.artifacts[successor].generation) then (Threw(StaleArtifactGeneration), s)
    else
      var (moved, t) := Move(s, replaced, s.artifacts[replaced], SUPERSEDED);
      if moved.Threw? then (moved, t)
      else (moved, t.(successors := Push(t.successors, replaced, successor),
                      predecessors := Push(t.predecessors, successor, replaced),
                      counters := t.counters.(supersessions := t.counters.supersessions + 1)))
  }

  function QuarantineLocked(s: State, id: Id, record: Quarantine): Step {
    if id !in s.artifacts then (Threw(UnknownArtifact), s)
    else
      var (moved, t) := Move(s, id, s.artifacts[id].(validation := QUARANTINE), QUARANTINED);
      if moved.Threw? then (moved, t) else (moved, t.(quarantines := Push(t.quarantines, id, record)))
  }

  /** One reference less to a content; the last one removes it. */
  function Drop(s: State, cd: Digest): Step {
    if cd !in s.store then (Returned(()), s)
    else
      var n := Down(s.store[cd].references);
      var t := s.(store := s.store[cd := s.store[cd].(references := n)]);
      if n > 0 then (Returned(()), t)
      else
        var c := t.counters.(physicalBacking := t.counters.physicalBacking - 1);
        var size := |s.store[cd].bytes|;
        if c.physicalBytes - size < 0 then (Threw(NegativeCounter), t.(counters := c))
        else (Returned(()), t.(store := t.store - {cd}, counters := c.(physicalBytes := c.physicalBytes - size)))
  }

  function Discharge(s: State, d: Descriptor): Step {
    var c := s.counters.(logicalArtifacts := s.counters.logicalArtifacts - 1);
    if c.logicalBytes - ToI64(d.sizeBytes) < 0 then (Threw(NegativeCounter), s.(counters := c))
    else
      var c2 := c.(logicalBytes := c.logicalBytes - ToI64(d.sizeBytes));
      if c2.activeReferences - 1 < 0 then (Threw(NegativeCounter), s.(counters := c2))
      else (Returned(()), s.(counters := c2.(activeReferences := c2.activeReferences - 1)))
  }

  function RetireLocked(s: State, id: Id): Step {
    if id !in s.artifacts then (Threw(UnknownArtifact), s)
    else
      var d := s.artifacts[id];
      if !CanTransition(d.lifecycle, RETIRED) then (Threw(IllegalTransition), s.(indexed := s.indexed - {id}))
      else
        var s1 := s.(artifacts := s.artifacts[id := d.(lifecycle := RETIRED)], indexed := s.indexed - {id});
        var (dropped, s2) := Drop(s1, d.contentDigest);
        if dropped.Threw? then (dropped, s2)
        else
          var (discharged, s3) := Discharge(s2, d);
          if discharged.Threw? then (discharged, s3) else (discharged, s3.(indexed := s3.indexed + {id}))
  }

  // ---- invalidate -----------------------------------------------------------------------

  predicate Settled(l: LifecycleState) {
    l == INVALIDATED || l == RETIRED || l == EVICTED
  }

  predicate Live(s: State, id: Id) {
    id in s.artifacts && !Settled(s.artifacts[id].lifecycle)
  }

  function LiveSet(s: State): set<Id> {
    set id | id in s.artifacts && Live(s, id)
  }

  function InvalidateOne(s: State, id: Id, cause: Bytes): Step
    requires id in s.artifacts
  {
    var (moved, t) := Move(s, id, s.artifacts[id], INVALIDATED);
    if moved.Threw? then (moved, t)
    else (moved, t.(causes := t.causes[id := cause],
                    counters := t.counters.(invalidations := t.counters.invalidations + 1)))
  }

  /** The same catalog with one descriptor replaced by another of the same identifier. */
  lemma ReplaceOne(s: State, t: State, id: Id, d: Descriptor)
    requires WellFormed(s) && id in s.artifacts && d.id == id
    requires t.artifacts == s.artifacts[id := d] && t.graph == s.graph && t.indexed <= s.indexed + {id}
    ensures WellFormed(t)
    ensures LiveSet(t) == LiveSet(s) - {id} + if Settled(d.lifecycle) then {} else {id}
  {
    hide Valid;
  }

  lemma InvalidateOneSettles(s: State, id: Id, cause: Bytes)
    requires WellFormed(s) && Live(s, id)
    ensures WellFormed(InvalidateOne(s, id, cause).1)
    ensures LiveSet(InvalidateOne(s, id, cause).1) <= LiveSet(s)
    ensures InvalidateOne(s, id, cause).0.Returned? ==> |LiveSet(InvalidateOne(s, id, cause).1)| < |LiveSet(s)|
  {
    hide WellFormed, LiveSet;
    var (moved, t) := InvalidateOne(s, id, cause);
    var d := s.artifacts[id];
    IdsMatch(s, id);
    ReplaceOne(s, t, id, if moved.Returned? then d.(lifecycle := INVALIDATED) else d);
    LiveMember(s, id);
    if moved.Returned? {
      assert LiveSet(t) == LiveSet(s) - {id};
    } else {
      assert LiveSet(t) == LiveSet(s) - {id} + {id};
    }
  }

  lemma IdsMatch(s: State, id: Id)
    requires WellFormed(s) && id in s.artifacts
    ensures s.artifacts[id].id == id
  {
  }

  lemma LiveMember(s: State, id: Id)
    requires Live(s, id)
    ensures id in LiveSet(s)
  {
  }

  /** `invalidate_dependents`: the recursion of the source. The measure is the number of live
      artifacts, then whether `id` is live. */
  ghost function InvalidateFrom(s: State, id: Id, cause: Bytes): (r: Step)
    requires WellFormed(s)
    ensures WellFormed(r.1) && LiveSet(r.1) <= LiveSet(s) && r.1.graph == s.graph
    decreases |LiveSet(s)|, if Live(s, id) then 0 else 2, 0
  {
    if Live(s, id) then
      InvalidateOneSettles(s, id, cause);
      var (moved, t) := InvalidateOne(s, id, cause);
      if moved.Threw? then (moved, t) else InvalidateEach(t, SortedIds(Dependents(t.graph, id)), cause)
    else InvalidateEach(s, SortedIds(Dependents(s.graph, id)), cause)
  }

  ghost function InvalidateEach(s: State, ids: seq<Id>, cause: Bytes): (r: Step)
    requires WellFormed(s)
    ensures WellFormed(r.1) && LiveSet(r.1) <= LiveSet(s) && r.1.graph == s.graph
    decreases |LiveSet(s)|, 1, |ids|
  {
    if ids == [] then (Returned(()), s)
    else if Live(s, ids[0]) then
      var (done, t) := InvalidateFrom(s, ids[0], cause);
      Collections.SubsetSize(LiveSet(t), LiveSet(s));
      if done.Threw? then (done, t) else InvalidateEach(t, ids[1..], cause)
    else InvalidateEach(s, ids[1..], cause)
  }

  ghost function InvalidateLocked(s: State, id: Id, cause: Bytes, a: Authority): Step
    requires WellFormed(s)
  {
    if id !in s.artifacts then (Threw(UnknownArtifact), s)
    else if StaleGeneration(a, s.artifacts[id].generation) then (Threw(StaleArtifactGeneration), s)
    else InvalidateFrom(s, id, cause)
  }

  // ---- calls ----------------------------------------------------------------------------

  datatype Call =
    | Register(desc: Descriptor, authority: Authority)
    | Publish(request: PublishRequest)
    | Validate(id: Id, report: Report, authority: Authority)
    | Promote(id: Id, authority: Authority)
    | Supersede(id: Id, successor: Id, authority: Authority)
    | Invalidate(id: Id, cause: Bytes, authority: Authority)
    | SetAside(id: Id, record: Quarantine, authority: Authority)
    | Retire(id: Id, authority: Authority)
    | RollEpoch(newBoot: Id)
    | SetAuthority(newEpoch: U64, newBoot: Id)
    | RebuildIndexes
  {
    /** The calls that carry an authority envelope. */
    predicate Mutates() { !RollEpoch? && !SetAuthority? && !RebuildIndexes? }

    function Envelope(): Authority
      requires Mutates()
    {
      if Publish? then request.authority else authority
    }
  }

  /** What a mutation does once it holds the lock. `next` is the next generation a publication
      read before taking it. */
  ghost function Locked(h: Bytes -> Digest, s: State, c: Call, next: U64): Step
    requires WellFormed(s) && c.Mutates()
  {
    match c
    case Register(desc, a) => RegisterLocked(s, desc)
    case Publish(req) =>
      (match Complete(h, next, req)
       case Threw(e) => (Threw(e), s)
       case Returned(d) => PublishLocked(h, s, req, d))
    case Validate(id, report, a) => ValidateLocked(s, id, report, a)
    case Promote(id, a) => PromoteLocked(s, id, a)
    case Supersede(id, successor, a) => SupersedeLocked(s, id, successor, a)
    case Invalidate(id, cause, a) => InvalidateLocked(s, id, cause, a)
    case SetAside(id, record, a) => QuarantineLocked(s, id, record)
    case Retire(id, a) => RetireLocked(s, id)
  }

  /** One call, start to end, with nothing in between. */
  ghost function Do(h: Bytes -> Digest, s: State, c: Call): Step
    requires WellFormed(s)
  {
    if c.Mutates() then
      var fenced := Fence(s.epoch, s.boot, c.Envelope());
      if fenced.Threw? then (fenced, s) else Locked(h, s, c, s.nextGeneration)
    else
      match c
      case RollEpoch(boot) => (Returned(()), s.(epoch := Up(s.epoch), boot := boot))
      case SetAuthority(epoch, boot) => (Returned(()), s.(epoch := epoch, boot := boot))
      case RebuildIndexes => (Returned(()), s.(indexed := s.artifacts.Keys))
  }
}
