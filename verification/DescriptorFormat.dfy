/** The binary format of an artifact descriptor, and its laws. */
module DescriptorFormat {
  import opened Types
  import opened Codec
  import opened CrcFrames

  const IMAGE_MAGIC: U32 := 0x41464642
  const DESCRIPTOR_SCHEMA: U32 := 1

  // ---- enumerations ---------------------------------------------------------------------

  function LifecycleCode(s: LifecycleState): U32 {
    match s
    case DECLARED => 0 case BUILDING => 1 case VALIDATING => 2 case VALID => 3
    case PUBLISHED => 4 case ACTIVE => 5 case STALE => 6 case INVALIDATED => 7
    case SUPERSEDED => 8 case QUARANTINED => 9 case EVICTED => 10 case RETIRED => 11
    case FAILED => 12
  }

  function LifecycleOf(n: U32): Outcome<LifecycleState> {
    if n == 0 then Returned(DECLARED) else if n == 1 then Returned(BUILDING)
    else if n == 2 then Returned(VALIDATING) else if n == 3 then Returned(VALID)
    else if n == 4 then Returned(PUBLISHED) else if n == 5 then Returned(ACTIVE)
    else if n == 6 then Returned(STALE) else if n == 7 then Returned(INVALIDATED)
    else if n == 8 then Returned(SUPERSEDED) else if n == 9 then Returned(QUARANTINED)
    else if n == 10 then Returned(EVICTED) else if n == 11 then Returned(RETIRED)
    else if n == 12 then Returned(FAILED) else Threw(InvalidEnum)
  }

  function ValidationCode(s: ValidationState): U32 {
    match s
    case UNVALIDATED => 0 case CHECKING => 1 case INTEGRITY_OK => 2 case VALIDATED => 3
    case INVALID => 4 case QUARANTINE => 5 case INTEGRITY_FAILURE => 6
  }

  function ValidationOf(n: U32): Outcome<ValidationState> {
    if n == 0 then Returned(UNVALIDATED) else if n == 1 then Returned(CHECKING)
    else if n == 2 then Returned(INTEGRITY_OK) else if n == 3 then Returned(VALIDATED)
    else if n == 4 then Returned(INVALID) else if n == 5 then Returned(QUARANTINE)
    else if n == 6 then Returned(INTEGRITY_FAILURE) else Threw(InvalidEnum)
  }

  function AtMost(limit: U32, n: U32): Outcome<U32> {
    if n <= limit then Returned(n) else Threw(InvalidEnum)
  }

  /** An enumeration stored by its number. */
  function EnumF(limit: U32): Format<U32> {
    Via(U32F(), (k: U32) => k, (n: U32) => AtMost(limit, n))
  }

  function LifecycleF(): Format<LifecycleState> { Via(U32F(), LifecycleCode, LifecycleOf) }
  function ValidationF(): Format<ValidationState> { Via(U32F(), ValidationCode, ValidationOf) }

  /** A fixed number that must be present. */
  function MarkF(mark: U32, error: Error): Format<()> {
    Via(U32F(), (_: ()) => mark, (n: U32) => if n == mark then Returned(()) else Threw(error))
  }

  /** A string field: 4096 bytes at most, both ways. */
  function NameF(): Format<Bytes> { BytesF(MAX_NAME, MAX_NAME) }

  // ---- nested records -------------------------------------------------------------------

  type DependencyFields = (Id, (Id, (U64, (Digest, U32))))

  function DependencyFieldsF(): Format<DependencyFields> {
    Pair(IdF(), Pair(IdF(), Pair(U64F(), Pair(DigestF(), EnumF(3)))))
  }

  function DependencyFieldsOf(d: DependencyRef): DependencyFields {
    (d.artifact, (d.dependencyId, (d.generation, (d.digest, d.kind))))
  }

  function DependencyOf(t: DependencyFields): Outcome<DependencyRef> {
    var (artifact, (id, (generation, (digest, kind)))) := t;
    if kind <= 3 then Returned(DependencyRef(artifact, id, generation, digest, kind)) else Threw(InvalidEnum)
  }

  function DependencyF(): Format<DependencyRef> {
    Via(DependencyFieldsF(), DependencyFieldsOf, DependencyOf)
  }

  type PlacementFields = (Id, (Id, (U32, (Bytes, (U64, (U64, (U64, (U64, (U64, (bool, bool))))))))))

  /** A locator is written like a string but read with the larger limit of an opaque field. */
  function PlacementFieldsF(): Format<PlacementFields> {
    Pair(IdF(), Pair(IdF(), Pair(EnumF(7), Pair(BytesF(MAX_NAME, MAX_FIELD), Pair(U64F(), Pair(U64F(),
      Pair(U64F(), Pair(U64F(), Pair(U64F(), Pair(FlagF(), FlagF()))))))))))
  }

  function PlacementFieldsOf(p: Placement): PlacementFields {
    (p.id, (p.location, (p.kind, (p.locator, (p.byteSize, (p.generation,
      (p.locality, (p.cost, (p.readiness, (p.integrityOk, p.persistent))))))))))
  }

  function PlacementOf(t: PlacementFields): Outcome<Placement> {
    var (id, (location, (kind, (locator, (byteSize, (generation,
      (locality, (cost, (readiness, (integrityOk, persistent)))))))))) := t;
    if kind > 7 then Threw(InvalidEnum)
    else if !Finite(locality) || !Finite(cost) || !Finite(readiness) then Threw(NotFinite)
    else Returned(Placement(id, location, kind, locator, byteSize, generation, locality, cost, readiness,
                            integrityOk, persistent))
  }

  function PlacementF(): Format<Placement> {
    Via(PlacementFieldsF(), PlacementFieldsOf, PlacementOf)
  }

  // ---- the descriptor, in seven parts ---------------------------------------------------

  type Head = ((), ((), (Id, (U32, (U64, (Digest, (Id, (U64, (Id, (U64, I64))))))))))
  type Target = (Option<Id>, (Option<U64>, (Option<Id>, (Option<U64>,
                 (Option<Id>, (Option<Id>, (Option<Id>, Option<Id>)))))))
  type Text = (U64, (Bytes, (Bytes, (Bytes, (Bytes, (Bytes, (Bytes, Bytes)))))))
  type Standing = (Digest, (Digest, (Digest, (Bytes, (U64, (ValidationState, LifecycleState))))))
  type End = (U64, (Bytes, Bytes))
  type Parts = (Head, (Target, (Text, (seq<DependencyRef>, (Standing, (seq<Placement>, End))))))

  function HeadF(): Format<Head> {
    Pair(MarkF(IMAGE_MAGIC, BadMagic), Pair(MarkF(DESCRIPTOR_SCHEMA, BadSchema), Pair(IdF(), Pair(EnumF(13),
      Pair(U64F(), Pair(DigestF(), Pair(IdF(), Pair(U64F(), Pair(IdF(), Pair(U64F(), I64F()))))))))))
  }

  function TargetF(): Format<Target> {
    Pair(OptionF(IdF()), Pair(OptionF(U64F()), Pair(OptionF(IdF()), Pair(OptionF(U64F()),
      Pair(OptionF(IdF()), Pair(OptionF(IdF()), Pair(OptionF(IdF()), OptionF(IdF()))))))))
  }

  function TextF(): Format<Text> {
    Pair(U64F(), Pair(NameF(), Pair(NameF(), Pair(NameF(), Pair(NameF(), Pair(NameF(), Pair(NameF(), NameF())))))))
  }

  function StateF(): Format<Standing> {
    Pair(DigestF(), Pair(DigestF(), Pair(DigestF(), Pair(NameF(), Pair(U64F(), Pair(ValidationF(), LifecycleF()))))))
  }

  function EndF(): Format<End> { Pair(U64F(), Pair(NameF(), NameF())) }

  function PartsF(): Format<Parts> {
    Pair(HeadF(), Pair(TargetF(), Pair(TextF(), Pair(ListF(DependencyF(), MAX_COUNT),
      Pair(StateF(), Pair(ListF(PlacementF(), MAX_COUNT), EndF()))))))
  }

  function HeadOf(d: Descriptor): Head {
    ((), ((), (d.id, (d.kind, (d.generation, (d.contentDigest, (d.producer, (d.producerGeneration,
      (d.provenance, (d.provenanceGeneration, d.createdNs))))))))))
  }

  function TargetOf(d: Descriptor): Target {
    (d.model, (d.modelGeneration, (d.adapter, (d.adapterGeneration,
      (d.runtime, (d.backend, (d.compiler, d.toolchain)))))))
  }

  function TextOf(d: Descriptor): Text {
    (d.toolchainGeneration, (d.architecture, (d.computeCapability, (d.abi, (d.dtype,
      (d.layout, (d.shape, d.launchMetadata)))))))
  }

  function StateOf(d: Descriptor): Standing {
    (d.dependencyDigest, (d.metadataDigest, (d.compatibilityDigest, (d.policyConfig, (d.policyGeneration,
      (d.validation, d.lifecycle))))))
  }

  function EndOf(d: Descriptor): End { (d.sizeBytes, (d.reuseMetadata, d.authorityMetadata)) }

  function PartsOf(d: Descriptor): Parts {
    (HeadOf(d), (TargetOf(d), (TextOf(d), (d.dependencies, (StateOf(d), (d.placements, EndOf(d)))))))
  }

  function Assemble(p: Parts): Outcome<Descriptor> {
    var (head, (target, (text, (dependencies, (state, (placements, end)))))) := p;
    var (_, (_, (id, (kind, (generation, (contentDigest, (producer, (producerGeneration,
         (provenance, (provenanceGeneration, createdNs)))))))))) := head;
    var (model, (modelGeneration, (adapter, (adapterGeneration,
         (runtime, (backend, (compiler, toolchain))))))) := target;
    var (toolchainGeneration, (architecture, (computeCapability, (abi, (dtype,
         (layout, (shape, launchMetadata))))))) := text;
    var (dependencyDigest, (metadataDigest, (compatibilityDigest, (policyConfig, (policyGeneration,
         (validation, lifecycle)))))) := state;
    var (sizeBytes, (reuseMetadata, authorityMetadata)) := end;
    if kind > 13 then Threw(InvalidEnum)
    else Returned(Descriptor(id, kind, generation, contentDigest, producer, producerGeneration, provenance,
      provenanceGeneration, createdNs, model, modelGeneration, adapter, adapterGeneration, runtime, backend,
      compiler, toolchain, toolchainGeneration, architecture, computeCapability, abi, dtype, layout, shape,
      launchMetadata, dependencies, dependencyDigest, metadataDigest, compatibilityDigest, policyConfig,
      policyGeneration, validation, lifecycle, placements, sizeBytes, reuseMetadata, authorityMetadata))
  }

  function DescriptorF(): Format<Descriptor> {
    Via(PartsF(), PartsOf, Assemble)
  }

  // ---- what can be written, and what can be read back -----------------------------------

  /** The text fields that also go into a compatibility digest. */
  predicate TextFits(d: Descriptor) {
    && |d.architecture| <= MAX_NAME && |d.computeCapability| <= MAX_NAME && |d.abi| <= MAX_NAME
    && |d.dtype| <= MAX_NAME && |d.layout| <= MAX_NAME && |d.shape| <= MAX_NAME && |d.launchMetadata| <= MAX_NAME
  }

  /** `write_descriptor` does not throw. */
  predicate Encodable(d: Descriptor) {
    && TextFits(d) && |d.policyConfig| <= MAX_NAME
    && |d.reuseMetadata| <= MAX_NAME && |d.authorityMetadata| <= MAX_NAME
    && |d.dependencies| <= MAX_COUNT && |d.placements| <= MAX_COUNT
    && (forall i :: 0 <= i < |d.placements| ==> |d.placements[i].locator| <= MAX_NAME)
  }

  predicate FinitePlacement(p: Placement) {
    Finite(p.locality) && Finite(p.cost) && Finite(p.readiness)
  }

  /** What `write_descriptor` accepts and `read_descriptor` accepts back. */
  predicate Storable(d: Descriptor) {
    Encodable(d) && forall i :: 0 <= i < |d.placements| ==> FinitePlacement(d.placements[i])
  }

  lemma LifecycleCodes(s: LifecycleState)
    ensures LifecycleOf(LifecycleCode(s)) == Returned(s)
  {
    match s
    case DECLARED => case BUILDING => case VALIDATING => case VALID => case PUBLISHED => case ACTIVE =>
    case STALE => case INVALIDATED => case SUPERSEDED => case QUARANTINED => case EVICTED => case RETIRED =>
    case FAILED =>
  }

  lemma ValidationCodes(s: ValidationState)
    ensures ValidationOf(ValidationCode(s)) == Returned(s)
  {
    match s
    case UNVALIDATED => case CHECKING => case INTEGRITY_OK => case VALIDATED => case INVALID =>
    case QUARANTINE => case INTEGRITY_FAILURE =>
  }

  lemma LifecycleLaw()
    ensures Lawful(LifecycleF()) && forall s :: LifecycleF().ok(s)
  {
    U32Law();
    ViaLaw(U32F(), LifecycleCode, LifecycleOf);
    forall s ensures LifecycleF().ok(s) { LifecycleCodes(s); }
  }

  lemma ValidationLaw()
    ensures Lawful(ValidationF()) && forall s :: ValidationF().ok(s)
  {
    U32Law();
    ViaLaw(U32F(), ValidationCode, ValidationOf);
    forall s ensures ValidationF().ok(s) { ValidationCodes(s); }
  }

  lemma EnumLaw(limit: U32)
    ensures Lawful(EnumF(limit)) && forall k: U32 :: EnumF(limit).ok(k) <==> k <= limit
  {
    U32Law();
    ViaLaw(U32F(), (k: U32) => k, (n: U32) => AtMost(limit, n));
  }

  lemma MarkLaw(mark: U32, error: Error)
    ensures Lawful(MarkF(mark, error)) && MarkF(mark, error).ok(())
  {
    U32Law();
    ViaLaw(U32F(), (_: ()) => mark, (n: U32) => if n == mark then Returned(()) else Threw(error));
  }

  // ---- the laws of the composed formats -------------------------------------------------

  lemma DependencyFieldsLaw()
    ensures Lawful(DependencyFieldsF())
  {
    IdLaw();
    U64Law();
    DigestLaw();
    EnumLaw(3);
    var f1 := Pair(DigestF(), EnumF(3));
    PairLaw(DigestF(), EnumF(3));
    var f2 := Pair(U64F(), f1);
    PairLaw(U64F(), f1);
    var f3 := Pair(IdF(), f2);
    PairLaw(IdF(), f2);
    PairLaw(IdF(), f3);
  }

  lemma DependencyLaw()
    ensures Lawful(DependencyF())
  {
    DependencyFieldsLaw();
    ViaLaw(DependencyFieldsF(), DependencyFieldsOf, DependencyOf);
  }

  lemma DependencyOk(d: DependencyRef)
    ensures DependencyF().ok(d)
  {
    EnumLaw(3);
    var t := DependencyFieldsOf(d);
    assert t.1.1.1.1 == d.kind && EnumF(3).ok(t.1.1.1.1);
    assert DependencyFieldsF().ok(t);
    assert DependencyOf(t) == Returned(d);
  }

  lemma PlacementFieldsLaw()
    ensures Lawful(PlacementFieldsF())
  {
    IdLaw();
    U64Law();
    FlagLaw();
    EnumLaw(7);
    BytesLaw(MAX_NAME, MAX_FIELD);
    var f1 := Pair(FlagF(), FlagF());
    PairLaw(FlagF(), FlagF());
    var f2 := Pair(U64F(), f1);
    PairLaw(U64F(), f1);
    var f3 := Pair(U64F(), f2);
    PairLaw(U64F(), f2);
    var f4 := Pair(U64F(), f3);
    PairLaw(U64F(), f3);
    var f5 := Pair(U64F(), f4);
    PairLaw(U64F(), f4);
    var f6 := Pair(U64F(), f5);
    PairLaw(U64F(), f5);
    var f7 := Pair(BytesF(MAX_NAME, MAX_FIELD), f6);
    PairLaw(BytesF(MAX_NAME, MAX_FIELD), f6);
    var f8 := Pair(EnumF(7), f7);
    PairLaw(EnumF(7), f7);
    var f9 := Pair(IdF(), f8);
    PairLaw(IdF(), f8);
    PairLaw(IdF(), f9);
  }

  lemma PlacementLaw()
    ensures Lawful(PlacementF())
  {
    PlacementFieldsLaw();
    ViaLaw(PlacementFieldsF(), PlacementFieldsOf, PlacementOf);
  }

  lemma PlacementOk(p: Placement)
    ensures PlacementF().ok(p) <==> |p.locator| <= MAX_NAME && FinitePlacement(p)
  {
    EnumLaw(7);
    var t := PlacementFieldsOf(p);
    assert t.1.1.0 == p.kind && EnumF(7).ok(t.1.1.0);
    assert PlacementFieldsF().ok(t) <==> |p.locator| <= MAX_NAME;
    assert PlacementOf(t) == Returned(p) <==> FinitePlacement(p);
  }

  lemma HeadLaw()
    ensures Lawful(HeadF())
  {
    IdLaw();
    U64Law();
    I64Law();
    DigestLaw();
    EnumLaw(13);
    MarkLaw(IMAGE_MAGIC, BadMagic);
    MarkLaw(DESCRIPTOR_SCHEMA, BadSchema);
    var f1 := Pair(U64F(), I64F());
    PairLaw(U64F(), I64F());
    var f2 := Pair(IdF(), f1);
    PairLaw(IdF(), f1);
    var f3 := Pair(U64F(), f2);
    PairLaw(U64F(), f2);
    var f4 := Pair(IdF(), f3);
    PairLaw(IdF(), f3);
    var f5 := Pair(DigestF(), f4);
    PairLaw(DigestF(), f4);
    var f6 := Pair(U64F(), f5);
    PairLaw(U64F(), f5);
    var f7 := Pair(EnumF(13), f6);
    PairLaw(EnumF(13), f6);
    var f8 := Pair(IdF(), f7);
    PairLaw(IdF(), f7);
    var f9 := Pair(MarkF(DESCRIPTOR_SCHEMA, BadSchema), f8);
    PairLaw(MarkF(DESCRIPTOR_SCHEMA, BadSchema), f8);
    PairLaw(MarkF(IMAGE_MAGIC, BadMagic), f9);
  }

  lemma TargetLaw()
    ensures Lawful(TargetF())
  {
    IdLaw();
    U64Law();
    var i, g := OptionF(IdF()), OptionF(U64F());
    OptionLaw(IdF());
    OptionLaw(U64F());
    var f1 := Pair(i, i);
    PairLaw(i, i);
    var f2 := Pair(i, f1);
    PairLaw(i, f1);
    var f3 := Pair(i, f2);
    PairLaw(i, f2);
    var f4 := Pair(g, f3);
    PairLaw(g, f3);
    var f5 := Pair(i, f4);
    PairLaw(i, f4);
    var f6 := Pair(g, f5);
    PairLaw(g, f5);
    PairLaw(i, f6);
  }

  lemma TextLaw()
    ensures Lawful(TextF())
  {
    U64Law();
    BytesLaw(MAX_NAME, MAX_NAME);
    var n := NameF();
    var f1 := Pair(n, n);
    PairLaw(n, n);
    var f2 := Pair(n, f1);
    PairLaw(n, f1);
    var f3 := Pair(n, f2);
    PairLaw(n, f2);
    var f4 := Pair(n, f3);
    PairLaw(n, f3);
    var f5 := Pair(n, f4);
    PairLaw(n, f4);
    var f6 := Pair(n, f5);
    PairLaw(n, f5);
    PairLaw(U64F(), f6);
  }

  lemma StateLaw()
    ensures Lawful(StateF())
  {
    U64Law();
    DigestLaw();
    BytesLaw(MAX_NAME, MAX_NAME);
    ValidationLaw();
    LifecycleLaw();
    var f1 := Pair(ValidationF(), LifecycleF());
    PairLaw(ValidationF(), LifecycleF());
    var f2 := Pair(U64F(), f1);
    PairLaw(U64F(), f1);
    var f3 := Pair(NameF(), f2);
    PairLaw(NameF(), f2);
    var f4 := Pair(DigestF(), f3);
    PairLaw(DigestF(), f3);
    var f5 := Pair(DigestF(), f4);
    PairLaw(DigestF(), f4);
    PairLaw(DigestF(), f5);
  }

  lemma EndLaw()
    ensures Lawful(EndF())
  {
    U64Law();
    BytesLaw(MAX_NAME, MAX_NAME);
    PairLaw(NameF(), NameF());
    PairLaw(U64F(), Pair(NameF(), NameF()));
  }

  lemma PartsLaw()
    ensures Lawful(PartsF())
  {
    HeadLaw();
    TargetLaw();
    TextLaw();
    DependencyLaw();
    StateLaw();
    PlacementLaw();
    EndLaw();
    var deps, places := ListF(DependencyF(), MAX_COUNT), ListF(PlacementF(), MAX_COUNT);
    ListLaw(DependencyF(), MAX_COUNT);
    ListLaw(PlacementF(), MAX_COUNT);
    var f1 := Pair(places, EndF());
    PairLaw(places, EndF());
    var f2 := Pair(StateF(), f1);
    PairLaw(StateF(), f1);
    var f3 := Pair(deps, f2);
    PairLaw(deps, f2);
    var f4 := Pair(TextF(), f3);
    PairLaw(TextF(), f3);
    var f5 := Pair(TargetF(), f4);
    PairLaw(TargetF(), f4);
    PairLaw(HeadF(), f5);
  }

  /** The descriptor format is self-delimiting and reads back what it wrote. */
  lemma DescriptorLaw()
    ensures Lawful(DescriptorF())
  {
    PartsLaw();
    ViaLaw(PartsF(), PartsOf, Assemble);
  }

  lemma HeadOk(d: Descriptor)
    ensures HeadF().ok(HeadOf(d))
  {
    EnumLaw(13);
    MarkLaw(IMAGE_MAGIC, BadMagic);
    MarkLaw(DESCRIPTOR_SCHEMA, BadSchema);
    assert EnumF(13).ok(d.kind);
  }

  lemma StateOk(d: Descriptor)
    ensures StateF().ok(StateOf(d)) <==> |d.policyConfig| <= MAX_NAME
  {
    ValidationLaw();
    LifecycleLaw();
  }

  lemma ListsOk(d: Descriptor)
    ensures ListF(DependencyF(), MAX_COUNT).ok(d.dependencies) <==> |d.dependencies| <= MAX_COUNT
    ensures ListF(PlacementF(), MAX_COUNT).ok(d.placements) <==>
      |d.placements| <= MAX_COUNT && forall i :: 0 <= i < |d.placements| ==>
        |d.placements[i].locator| <= MAX_NAME && FinitePlacement(d.placements[i])
  {
    forall i | 0 <= i < |d.dependencies| ensures DependencyF().ok(d.dependencies[i]) { DependencyOk(d.dependencies[i]); }
    forall i | 0 <= i < |d.placements|
      ensures PlacementF().ok(d.placements[i]) <==>
              |d.placements[i].locator| <= MAX_NAME && FinitePlacement(d.placements[i])
    {
      PlacementOk(d.placements[i]);
    }
  }

  lemma TargetAndTextOk(d: Descriptor)
    ensures TargetF().ok(TargetOf(d))
    ensures TextF().ok(TextOf(d)) <==> TextFits(d)
    ensures EndF().ok(EndOf(d)) <==> |d.reuseMetadata| <= MAX_NAME && |d.authorityMetadata| <= MAX_NAME
  {
  }

  lemma AssembleInverse(d: Descriptor)
    ensures Assemble(PartsOf(d)) == Returned(d)
  {
  }

  /** Exactly the storable descriptors are within the format. */
  lemma StorableIsOk(d: Descriptor)
    ensures DescriptorF().ok(d) <==> Storable(d)
  {
    HeadOk(d);
    StateOk(d);
    ListsOk(d);
    AssembleInverse(d);
    TargetAndTextOk(d);
    assert PartsF().ok(PartsOf(d)) <==> Storable(d);
  }

  // ---- framed descriptors ---------------------------------------------------------------

  /** `encode_descriptor`: the payload and its CRC. */
  function EncodeDescriptor(d: Descriptor): Outcome<Bytes> {
    if Encodable(d) then Returned(Seal(DescriptorF().put(d))) else Threw(EncodeLimit)
  }

  /** `decode_descriptor`. */
  function DecodeDescriptor(frame: Bytes): Outcome<Descriptor> {
    Decode(DescriptorF(), frame)
  }

  lemma PlacementRefused(p: Placement)
    requires |p.locator| <= MAX_NAME && !FinitePlacement(p)
    ensures Refuses(PlacementF(), p, NotFinite)
  {
    EnumLaw(7);
    PlacementFieldsLaw();
    var t := PlacementFieldsOf(p);
    assert t.1.1.0 == p.kind && EnumF(7).ok(t.1.1.0);
    assert PlacementFieldsF().ok(t) && PlacementOf(t) == Threw(NotFinite);
    ViaRefuses(PlacementFieldsF(), PlacementFieldsOf, PlacementOf, p, NotFinite);
  }

  lemma PlacementsRefused(ps: seq<Placement>, i: nat)
    requires |ps| <= MAX_COUNT && i < |ps| && !FinitePlacement(ps[i])
    requires forall j :: 0 <= j < |ps| ==> |ps[j].locator| <= MAX_NAME
    ensures Refuses(ListF(PlacementF(), MAX_COUNT), ps, NotFinite)
  {
    PlacementLaw();
    forall j | 0 <= j < |ps| ensures PlacementF().ok(ps[j]) || Refuses(PlacementF(), ps[j], NotFinite) {
      PlacementOk(ps[j]);
      if !FinitePlacement(ps[j]) { PlacementRefused(ps[j]); }
    }
    PlacementOk(ps[i]);
    PlacementRefused(ps[i]);
    ListRefuses(PlacementF(), MAX_COUNT, ps, i, NotFinite);
  }

  lemma DescriptorRefused(d: Descriptor, i: nat)
    requires Encodable(d) && i < |d.placements| && !FinitePlacement(d.placements[i])
    ensures Refuses(DescriptorF(), d, NotFinite)
  {
    HeadLaw();
    TargetLaw();
    TextLaw();
    DependencyLaw();
    ListLaw(DependencyF(), MAX_COUNT);
    StateLaw();
    HeadOk(d);
    TargetAndTextOk(d);
    StateOk(d);
    ListsOk(d);
    PlacementsRefused(d.placements, i);
    var deps, places := ListF(DependencyF(), MAX_COUNT), ListF(PlacementF(), MAX_COUNT);
    var p := PartsOf(d);
    var f1 := Pair(places, EndF());
    PairRefusesFirst(places, EndF(), p.1.1.1.1.1, NotFinite);
    var f2 := Pair(StateF(), f1);
    PairRefusesSecond(StateF(), f1, p.1.1.1.1, NotFinite);
    var f3 := Pair(deps, f2);
    PairRefusesSecond(deps, f2, p.1.1.1, NotFinite);
    var f4 := Pair(TextF(), f3);
    PairRefusesSecond(TextF(), f3, p.1.1, NotFinite);
    var f5 := Pair(TargetF(), f4);
    PairRefusesSecond(TargetF(), f4, p.1, NotFinite);
    PairRefusesSecond(HeadF(), f5, p, NotFinite);
    ViaRefuses(PartsF(), PartsOf, Assemble, d, NotFinite);
  }

  /** Of everything the encoder accepts, exactly the descriptors whose placement numbers are
      all finite come back, and unchanged; the others are rejected. */
  lemma DescriptorRoundTrip(d: Descriptor)
    requires Encodable(d)
    ensures EncodeDescriptor(d).Returned?
    ensures DecodeDescriptor(EncodeDescriptor(d).value) == if Storable(d) then Returned(d) else Threw(NotFinite)
  {
    DescriptorLaw();
    StorableIsOk(d);
    if Storable(d) {
      DecodeReadsBack(DescriptorF(), d);
    } else {
      var i :| 0 <= i < |d.placements| && !FinitePlacement(d.placements[i]);
      DescriptorRefused(d, i);
      DecodeRefuses(DescriptorF(), d, NotFinite);
    }
  }

  /** No accepted descriptor frame can be truncated or extended and still be accepted, even
      if the CRC happens to match. */
  lemma DescriptorFramesRigid(frame: Bytes, k: nat, more: Bytes)
    requires DecodeDescriptor(frame).Returned? && k < |frame| && more != []
    ensures DecodeDescriptor(frame[..k]).Threw?
    ensures DecodeDescriptor(frame + more).Threw?
  {
    DescriptorLaw();
    TruncationRejected(DescriptorF(), frame, k);
    FramesArePrefixFree(DescriptorF(), frame, more);
  }
}
