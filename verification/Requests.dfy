/** What each call and each request of the coordinator concerns, told by the whole state it
    leaves. */
module Requests {
  import opened Types
  import opened Lifecycle
  import opened Accounting
  import opened GraphModel
  import opened DependencyDigests
  import opened DescriptorFormat
  import opened Derivation
  import opened CatalogModel
  import opened CatalogEffects
  import opened Invalidation
  import opened Protocol
  import opened Coordination

  // ---- authority ------------------------------------------------------------------------

  /** Who a call says it acts for. */
  predicate ActsFor(c: Call, a: Authority) {
    match c
    case Register(_, b) => a == b
    case Publish(req) => a == req.authority
    case Validate(_, _, b) => a == b
    case Promote(_, b) => a == b
    case Supersede(_, _, b) => a == b
    case Invalidate(_, _, b) => a == b
    case SetAside(_, _, b) => a == b
    case Retire(_, b) => a == b
    case _ => false
  }

  /** Every mutation is refused, and changes nothing, under another epoch; and under the same
      epoch, for another boot. */
  lemma FencedOff(h: Bytes -> Digest, s: State, c: Call, a: Authority)
    requires WellFormed(s) && ActsFor(c, a)
    ensures a.epoch != s.epoch ==> Do(h, s, c) == (Threw(StaleEpoch), s)
    ensures a.epoch == s.epoch && a.boot != s.boot ==> Do(h, s, c) == (Threw(StaleBoot), s)
  {
    hide WellFormed, Locked;
  }

  /** The calls without an envelope change the authority, or the indexes, and nothing else. */
  lemma OtherCallsChange(h: Bytes -> Digest, s: State, boot: Id, epoch: U64)
    requires WellFormed(s)
    ensures Do(h, s, SetAuthority(epoch, boot)) == (Returned(()), s.(epoch := epoch, boot := boot))
    ensures Do(h, s, RollEpoch(boot)) == (Returned(()), s.(epoch := (s.epoch + 1) % 0x1_0000_0000_0000_0000, boot := boot))
    ensures Do(h, s, RebuildIndexes) == (Returned(()), s.(indexed := s.artifacts.Keys))
  {
    hide WellFormed;
  }

  /** A call that names an artifact the catalog does not have is refused. */
  lemma UnknownRefused(h: Bytes -> Digest, s: State, id: Id, other: Id, report: Report, cause: Bytes, record: Quarantine,
                       a: Authority)
    requires WellFormed(s) && a.epoch == s.epoch && a.boot == s.boot && id !in s.artifacts
    ensures Do(h, s, Validate(id, report, a)) == (Threw(UnknownArtifact), s)
    ensures Do(h, s, Promote(id, a)) == (Threw(UnknownArtifact), s)
    ensures Do(h, s, Invalidate(id, cause, a)) == (Threw(UnknownArtifact), s)
    ensures Do(h, s, SetAside(id, record, a)) == (Threw(UnknownArtifact), s)
    ensures Do(h, s, Retire(id, a)) == (Threw(UnknownArtifact), s)
    ensures Do(h, s, Supersede(id, other, a)) == (Threw(UnknownArtifact), s)
    ensures Do(h, s, Supersede(other, id, a)) == (Threw(UnknownArtifact), s)
  {
    hide WellFormed, CanTransition, InvalidateFrom, Drop, Discharge, Move;
  }

  /** And one that carries an older generation than the artifact it concerns. */
  lemma OlderRefused(h: Bytes -> Digest, s: State, id: Id, other: Id, report: Report, cause: Bytes, a: Authority)
    requires WellFormed(s) && a.epoch == s.epoch && a.boot == s.boot
    requires id in s.artifacts && a.artifactGeneration != 0 && a.artifactGeneration < s.artifacts[id].generation
    ensures Do(h, s, Validate(id, report, a)) == (Threw(StaleArtifactGeneration), s)
    ensures Do(h, s, Promote(id, a)) == (Threw(StaleArtifactGeneration), s)
    ensures Do(h, s, Invalidate(id, cause, a)) == (Threw(StaleArtifactGeneration), s)
    ensures other in s.artifacts && s.artifacts[other].lifecycle !in {RETIRED, EVICTED} ==>
              Do(h, s, Supersede(other, id, a)) == (Threw(StaleArtifactGeneration), s)
  {
    hide WellFormed, CanTransition, InvalidateFrom, Move;
  }

  // ---- publications ---------------------------------------------------------------------

  lemma EnterSigned(h: Bytes -> Digest, s: State, d: Descriptor)
    requires WellFormed(s) && Enter(h, s, d).0.Returned?
    ensures var t := Enter(h, s, d).1;
      Valid(t.graph) && d.id in t.artifacts && Sign(h, t.graph, d) == Returned(t.artifacts[d.id])
  {
    hide WellFormed, Valid, Link, Sign, Unsigned, Charge;
    GraphOf(s);
    var s1 := s.(artifacts := s.artifacts[d.id := d]);
    var (linked, g) := Link(s1.graph, d.id, d.dependencies);
    UnsignedId(h, g, d);
    var e := Sign(h, g, d).value;
    ChargeSame(s1.(graph := g, artifacts := s1.artifacts[d.id := e]), e);
  }

  /** `e` is `d` signed in the graph `g`: the digests are taken while it is VALID. */
  ghost predicate SignedAs(h: Bytes -> Digest, g: Graph, d: Descriptor, e: Descriptor) {
    && e == d.(dependencyDigest := h(DigestInput(g, d.id)), validation := INTEGRITY_OK, lifecycle := PUBLISHED,
               metadataDigest := e.metadataDigest, compatibilityDigest := h(CompatBytes(e)))
    && e.metadataDigest == h(DescriptorF().put(
         e.(lifecycle := VALID, metadataDigest := d.metadataDigest, compatibilityDigest := d.compatibilityDigest)))
  }

  lemma SignIs(h: Bytes -> Digest, g: Graph, d: Descriptor, e: Descriptor)
    requires Valid(g) && Sign(h, g, d) == Returned(e)
    ensures SignedAs(h, g, d, e)
  {
    hide Valid, DigestInput, DescriptorF, TargetF, TextF, Encodable, Encoding.LE, Encoding.BE;
  }

  /** The descriptor a publication asks for, with what the program fills in. */
  function Asked(h: Bytes -> Digest, next: U64, req: PublishRequest): Descriptor {
    var d, a := req.descriptor, req.authority;
    d.(contentDigest := h(req.content),
       producer := if d.producer != 0 then d.producer else a.producer,
       producerGeneration := if d.producerGeneration != 0 then d.producerGeneration else a.producerGeneration,
       generation := if d.generation != 0 then d.generation else next)
  }

  lemma CompleteIs(h: Bytes -> Digest, next: U64, req: PublishRequest)
    requires Complete(h, next, req).Returned?
    ensures var d, asked := Complete(h, next, req).value, Asked(h, next, req);
      && d == asked.(id := d.id)
      && (req.descriptor.id != 0 ==> d.id == req.descriptor.id)
      && (req.descriptor.id == 0 ==> DeriveId(h, asked.(generation := req.descriptor.generation)) == Returned(d.id))
  {
    hide DeriveId;
  }

  lemma LockedSigned(h: Bytes -> Digest, s: State, req: PublishRequest, d: Descriptor)
    requires WellFormed(s) && PublishLocked(h, s, req, d).0.Returned?
    ensures var t := PublishLocked(h, s, req, d).1;
      d.id in t.artifacts && SignedAs(h, t.graph, d, t.artifacts[d.id])
  {
    hide WellFormed, Keep, Enter, SignedAs, Sign, Valid, ToI64, SameCatalog;
    var size := ChargedSize(d, req.content);
    KeepSame(s, d.contentDigest, req.content, size);
    var s1 := Keep(s, d.contentDigest, req.content, size).1;
    StoreKeeps(s, s1);
    var b := d.(lifecycle := BUILDING);
    EnterSigned(h, s1, b);
    var t := Enter(h, s1, b).1;
    SignIs(h, t.graph, b, t.artifacts[d.id]);
    SignedWhatever(h, t.graph, d, t.artifacts[d.id]);
  }

  lemma SignedWhatever(h: Bytes -> Digest, g: Graph, d: Descriptor, e: Descriptor)
    requires SignedAs(h, g, d.(lifecycle := BUILDING), e)
    ensures SignedAs(h, g, d, e)
  {
    hide DigestInput, DescriptorF, CompatBytes;
  }

  /** A publication that returns enters one artifact, under the identifier that was asked for or
      derived: exactly the descriptor that was asked for, signed in the new graph. */
  lemma PublishedAs(h: Bytes -> Digest, s: State, req: PublishRequest, t: State) returns (id: Id)
    requires WellFormed(s) && Do(h, s, Publish(req)) == (Returned(()), t)
    ensures Complete(h, s.nextGeneration, req).Returned? && id == Complete(h, s.nextGeneration, req).value.id
    ensures req.descriptor.id != 0 ==> id == req.descriptor.id
    ensures req.descriptor.id == 0 ==>
      DeriveId(h, Asked(h, s.nextGeneration, req).(generation := req.descriptor.generation)) == Returned(id)
    ensures id !in s.artifacts && id in t.artifacts && t.artifacts == s.artifacts[id := t.artifacts[id]]
    ensures SignedAs(h, t.graph, Asked(h, s.nextGeneration, req).(id := id), t.artifacts[id])
  {
    hide WellFormed, Complete, PublishLocked, DeriveId, Asked, SignedAs, Published;
    var d := Complete(h, s.nextGeneration, req).value;
    id := d.id;
    CompleteIs(h, s.nextGeneration, req);
    CompleteFields(h, s.nextGeneration, req);
    LockedSigned(h, s, req, d);
    PublishEffect(h, s, req, d);
    PublishedOne(h, s, t, req, d);
  }

  lemma PublishedOne(h: Bytes -> Digest, s: State, t: State, req: PublishRequest, d: Descriptor)
    requires d.id in t.artifacts && Published(h, s, t, req, t.artifacts[d.id])
    requires SignedAs(h, t.graph, d, t.artifacts[d.id])
    ensures d.id !in s.artifacts && t.artifacts == s.artifacts[d.id := t.artifacts[d.id]]
  {
    hide Encodable, Link, Valid, Stored, ToI64, DigestInput, DescriptorF, CompatBytes;
  }

  // ---- lifecycle calls ------------------------------------------------------------------

  /** The state after `id` became `e` and was indexed again. */
  function Changed(s: State, id: Id, e: Descriptor): State {
    s.(artifacts := s.artifacts[id := e], indexed := s.indexed + {id})
  }

  function Appended<V>(m: map<Id, seq<V>>, k: Id, v: V): map<Id, seq<V>> {
    m[k := if k in m then m[k] + [v] else [v]]
  }

  lemma PushIs<V>(m: map<Id, seq<V>>, k: Id, v: V)
    ensures Push(m, k, v) == Appended(m, k, v)
  {
    assert [] + [v] == [v];
  }

  /** What registering, validating, promoting, superseding and quarantining leave behind when
      they return. */
  lemma CallsChange(h: Bytes -> Digest, s: State, c: Call, t: State)
    requires WellFormed(s) && Do(h, s, c) == (Returned(()), t)
    ensures c.Register? ==>
      && c.desc.id !in s.artifacts
      && t == Changed(s, c.desc.id, c.desc.(lifecycle := DECLARED, validation := UNVALIDATED)).(
           nextGeneration := if c.desc.generation != 0 && c.desc.generation >= s.nextGeneration
                             then t.nextGeneration else s.nextGeneration)
    ensures c.Register? && c.desc.generation != 0 && c.desc.generation >= s.nextGeneration ==>
      t.nextGeneration as int == c.desc.generation as int + 1
    ensures c.Validate? ==>
      var good := (forall i :: 0 <= i < |c.report.checks| ==> c.report.checks[i]) && c.report.state in {VALIDATED, INTEGRITY_OK};
      && c.id in s.artifacts
      && t == Changed(s, c.id, s.artifacts[c.id].(validation := c.report.state, lifecycle := if good then VALID else FAILED))
    ensures c.Promote? ==>
      c.id in s.artifacts && t == Changed(s, c.id, s.artifacts[c.id].(lifecycle := ACTIVE))
    ensures c.Supersede? ==>
      && c.id in s.artifacts && c.successor in s.artifacts
      && t == Changed(s, c.id, s.artifacts[c.id].(lifecycle := SUPERSEDED)).(
           successors := Appended(s.successors, c.id, c.successor),
           predecessors := Appended(s.predecessors, c.successor, c.id),
           counters := s.counters.(supersessions := s.counters.supersessions + 1))
    ensures c.SetAside? ==>
      && c.id in s.artifacts
      && t == Changed(s, c.id, s.artifacts[c.id].(lifecycle := QUARANTINED, validation := QUARANTINE)).(
           quarantines := Appended(s.quarantines, c.id, c.record))
  {
    hide WellFormed, CanTransition, PublishLocked, InvalidateLocked, RetireLocked, Complete, Push, Appended;
    if c.Supersede? {
      PushIs(s.successors, c.id, c.successor);
      PushIs(s.predecessors, c.successor, c.id);
    } else if c.SetAside? {
      PushIs(s.quarantines, c.id, c.record);
    }
  }

  /** An invalidation that returns invalidates, for its cause, what is live of its artifact and
      of everything that depends on it, and leaves the other artifacts alone. */
  lemma InvalidationLeaves(h: Bytes -> Digest, s: State, id: Id, cause: Bytes, a: Authority, t: State)
    requires WellFormed(s) && Do(h, s, Invalidate(id, cause, a)) == (Returned(()), t)
    ensures id in s.artifacts && t.artifacts.Keys == s.artifacts.Keys
    ensures forall x :: x in s.artifacts ==>
      var hit := (x == id || DependsOn(s.graph, x, id)) && s.artifacts[x].lifecycle !in {INVALIDATED, RETIRED, EVICTED};
      && t.artifacts[x] == (if hit then s.artifacts[x].(lifecycle := INVALIDATED) else s.artifacts[x])
      && (hit ==> x in t.causes && t.causes[x] == cause)
  {
    hide WellFormed, InvalidateFrom, DependsOn, Hit;
    InvalidationIsExact(s, id, cause, a);
    forall x | x in s.artifacts
      ensures x in Hit(s, id) <==>
        (x == id || DependsOn(s.graph, x, id)) && s.artifacts[x].lifecycle !in {INVALIDATED, RETIRED, EVICTED}
    {
      HitIs(s, id, x);
    }
  }

  lemma RetirementLeaves(h: Bytes -> Digest, s: State, id: Id, a: Authority, t: State)
    requires WellFormed(s) && Do(h, s, Retire(id, a)) == (Returned(()), t)
    ensures id in s.artifacts && t.artifacts == s.artifacts[id := s.artifacts[id].(lifecycle := RETIRED)]
  {
    hide WellFormed, CanTransition, RetireLocked, ToI64, Released, Down;
    RetireEffect(s, id);
  }

  lemma HitIs(s: State, id: Id, x: Id)
    requires WellFormed(s) && x in s.artifacts
    ensures x in Hit(s, id) <==>
      (x == id || DependsOn(s.graph, x, id)) && s.artifacts[x].lifecycle !in {INVALIDATED, RETIRED, EVICTED}
  {
    hide DependsOn;
    if DependsOn(s.graph, x, id) { DependsOnNode(s.graph, x, id); }
  }

  // ---- requests -------------------------------------------------------------------------

  /** Which call a request stands for, by its type: 4 publishes its descriptor and content, 5
      validates, 7 supersedes its first artifact by its second, 8 invalidates and 9 retires its
      artifact; nothing else mutates, and each acts under its own envelope. */
  lemma RequestsAre(q: Request)
    ensures CallOf(q).Some? <==> q.kind in {4, 5, 7, 8, 9}
    ensures CallOf(q).Some? ==> ActsFor(CallOf(q).value, q.authority)
    ensures q.kind == 4 ==> CallOf(q).value == Publish(PublishRequest(q.descriptor, q.content, q.authority))
    ensures q.kind == 5 ==> CallOf(q).value.Validate? && CallOf(q).value.id == q.artifactId
    ensures q.kind == 7 ==> CallOf(q).value == Supersede(q.artifactId, q.artifactId2, q.authority)
    ensures q.kind == 8 ==> CallOf(q).value == Invalidate(q.artifactId, q.cause, q.authority)
    ensures q.kind == 9 ==> CallOf(q).value == Retire(q.artifactId, q.authority)
  {
  }

  /** What is told to requests that change nothing: 0 and 1 the authority, 1 a fresh identifier, 10
      the artifact that was asked for, if it is catalogued; any other type is refused. */
  lemma RepliesTell(s: State, q: Request, random: Id)
    ensures q.kind in {0, 1} ==> Told(s, q, random).ok && Told(s, q, random).epoch == s.epoch && Told(s, q, random).boot == s.boot
    ensures q.kind == 1 ==> Told(s, q, random).artifactId == random
    ensures q.kind == 10 ==>
      && Told(s, q, random).ok && (Told(s, q, random).found.Some? <==> q.artifactId in s.artifacts)
      && (q.artifactId in s.artifacts ==> Told(s, q, random).found == Some(s.artifacts[q.artifactId]))
    ensures q.kind !in {0, 1, 10} ==> !Told(s, q, random).ok && Told(s, q, random).found == None
  {
  }

  /** The one new artifact is that of the request, with its content. */
  predicate Entered(h: Bytes -> Digest, s: State, q: Request, t: State, id: Id) {
    && id !in s.artifacts && id in t.artifacts && t.artifacts == s.artifacts[id := t.artifacts[id]]
    && t.artifacts[id].contentDigest == h(q.content) && t.artifacts[id].dependencies == q.descriptor.dependencies
    && (q.descriptor.id != 0 ==> id == q.descriptor.id)
  }

  /** A request to publish that succeeds enters its artifact, under the identifier it is told. */
  lemma PublishConcerns(h: Bytes -> Digest, s: State, q: Request, req: PublishRequest, t: State)
    requires WellFormed(s) && q.kind == 4 && req == PublishRequest(q.descriptor, q.content, q.authority)
    requires Do(h, s, Publish(req)) == (Returned(()), t)
    ensures Complete(h, s.nextGeneration, req).Returned?
    ensures Entered(h, s, q, t, Complete(h, s.nextGeneration, req).value.id)
  {
    hide WellFormed, Do, SignedAs, DeriveId, Complete;
    var id := PublishedAs(h, s, req, t);
    SignedFields(h, t.graph, Asked(h, s.nextGeneration, req).(id := id), t.artifacts[id]);
  }

  /** What a request to validate or supersede leaves when it succeeds. */
  lemma RequestConcerns(h: Bytes -> Digest, s: State, q: Request, c: Call, t: State)
    requires WellFormed(s) && q.kind in {5, 7} && CallOf(q) == Some(c) && Do(h, s, c) == (Returned(()), t)
    ensures q.artifactId in s.artifacts && t.artifacts.Keys == s.artifacts.Keys
    ensures q.kind == 5 ==>
      t == Changed(s, q.artifactId, s.artifacts[q.artifactId].(
             validation := if q.validationOk then VALIDATED else INVALID,
             lifecycle := if q.validationOk then VALID else FAILED))
    ensures q.kind == 7 ==>
      && q.artifactId2 in s.artifacts
      && t.artifacts == s.artifacts[q.artifactId := s.artifacts[q.artifactId].(lifecycle := SUPERSEDED)]
      && t.successors == Appended(s.successors, q.artifactId, q.artifactId2)
      && t.predecessors == Appended(s.predecessors, q.artifactId2, q.artifactId)
  {
    hide WellFormed, Do, Appended;
    RequestsAre(q);
    CallsChange(h, s, c, t);
  }

  /** What a request to invalidate or retire leaves of the artifacts when it succeeds. */
  lemma RequestEnds(h: Bytes -> Digest, s: State, q: Request, c: Call, t: State)
    requires WellFormed(s) && q.kind in {8, 9} && CallOf(q) == Some(c) && Do(h, s, c) == (Returned(()), t)
    ensures q.artifactId in s.artifacts && t.artifacts.Keys == s.artifacts.Keys
    ensures q.kind == 8 ==>
      forall x :: x in s.artifacts && t.artifacts[x] != s.artifacts[x] ==>
        && (x == q.artifactId || DependsOn(s.graph, x, q.artifactId))
        && t.artifacts[x] == s.artifacts[x].(lifecycle := INVALIDATED) && x in t.causes && t.causes[x] == q.cause
    ensures q.kind == 9 ==>
      t.artifacts == s.artifacts[q.artifactId := s.artifacts[q.artifactId].(lifecycle := RETIRED)]
  {
    hide WellFormed, Do, DependsOn;
    RequestsAre(q);
    if q.kind == 8 { InvalidationLeaves(h, s, q.artifactId, q.cause, q.authority, t); }
    if q.kind == 9 { RetirementLeaves(h, s, q.artifactId, q.authority, t); }
  }

  lemma SignedFields(h: Bytes -> Digest, g: Graph, d: Descriptor, e: Descriptor)
    requires SignedAs(h, g, d, e)
    ensures e.contentDigest == d.contentDigest && e.dependencies == d.dependencies && e.id == d.id
  {
    hide DigestInput, DescriptorF, CompatBytes;
  }
}
