/** What the program derives from a descriptor by hashing: its identifier and its digests.
    The hash is a parameter. */
module Derivation {
  import opened Types
  import opened Encoding
  import opened Codec
  import opened DescriptorFormat
  import opened Persistence

  const PROTOCOL_VERSION: U32 := 1

  /** The fields two descriptors must share to be interchangeable, as they are hashed. */
  function CompatBytes(d: Descriptor): Bytes {
    LE(d.kind, 4) + TargetF().put(TargetOf(d)) + TextF().put(TextOf(d)) + LE(d.policyGeneration, 8)
    + LE(d.generation, 8) + BE(d.dependencyDigest, 32) + LE(PROTOCOL_VERSION, 4)
  }

  function DerivationBytes(d: Descriptor): Bytes {
    CompatBytes(d) + LE(d.generation, 8) + BE(d.producer, 16)
  }

  /** The first sixteen bytes of a digest. */
  function IdOfDigest(x: Digest): Id {
    x / 0x1_0000_0000_0000_0000_0000_0000_0000_0000
  }

  /** `derive_artifact_id`. */
  function DeriveId(h: Bytes -> Digest, d: Descriptor): Outcome<Id> {
    if TextFits(d) then Returned(IdOfDigest(h(DerivationBytes(d)))) else Threw(EncodeLimit)
  }

  /** `refresh_descriptor_digests`. */
  function Refresh(h: Bytes -> Digest, d: Descriptor): Outcome<Descriptor> {
    if Encodable(d) then
      Returned(d.(metadataDigest := h(DescriptorF().put(d)), compatibilityDigest := h(CompatBytes(d))))
    else Threw(EncodeLimit)
  }

  // ---- what the bytes distinguish -------------------------------------------------------

  /** The fields that make two descriptors interchangeable. */
  predicate SameForm(d: Descriptor, e: Descriptor) {
    && d.kind == e.kind
    && d.model == e.model && d.modelGeneration == e.modelGeneration
    && d.adapter == e.adapter && d.adapterGeneration == e.adapterGeneration
    && d.runtime == e.runtime && d.backend == e.backend && d.compiler == e.compiler && d.toolchain == e.toolchain
    && d.toolchainGeneration == e.toolchainGeneration
    && d.architecture == e.architecture && d.computeCapability == e.computeCapability && d.abi == e.abi
    && d.dtype == e.dtype && d.layout == e.layout && d.shape == e.shape && d.launchMetadata == e.launchMetadata
    && d.policyGeneration == e.policyGeneration && d.generation == e.generation
    && d.dependencyDigest == e.dependencyDigest
  }

  lemma PutInjective<T(!new)>(c: Format<T>, x: T, y: T)
    requires Lawful(c) && c.ok(x) && c.ok(y) && c.put(x) == c.put(y)
    ensures x == y
  {
    assert ReadsBack(c, x, []) && ReadsBack(c, y, []);
  }

  type Ending = (U64, (U64, (Digest, U32)))

  function EndingF(): Format<Ending> { Pair(U64F(), Pair(U64F(), Pair(DigestF(), U32F()))) }

  function CompatF(): Format<(U32, (Target, (Text, Ending)))> {
    Pair(U32F(), Pair(TargetF(), Pair(TextF(), EndingF())))
  }

  function EndingOf(d: Descriptor): Ending {
    (d.policyGeneration, (d.generation, (d.dependencyDigest, PROTOCOL_VERSION)))
  }

  function CompatOf(d: Descriptor): (U32, (Target, (Text, Ending))) {
    (d.kind, (TargetOf(d), (TextOf(d), EndingOf(d))))
  }

  lemma EndingLaw()
    ensures Lawful(EndingF())
  {
    U64Law();
    DigestLaw();
    U32Law();
    PairLaw(DigestF(), U32F());
    var f1 := Pair(DigestF(), U32F());
    PairLaw(U64F(), f1);
    PairLaw(U64F(), Pair(U64F(), f1));
  }

  lemma CompatLaw()
    ensures Lawful(CompatF())
  {
    hide TargetF, TextF, EndingF, U32F, Pair;
    U32Law();
    TargetLaw();
    TextLaw();
    EndingLaw();
    PairLaw(TextF(), EndingF());
    PairLaw(TargetF(), Pair(TextF(), EndingF()));
    PairLaw(U32F(), Pair(TargetF(), Pair(TextF(), EndingF())));
  }

  lemma EndingPut(d: Descriptor)
    ensures EndingF().put(EndingOf(d)) ==
      LE(d.policyGeneration, 8) + (LE(d.generation, 8) + (BE(d.dependencyDigest, 32) + LE(PROTOCOL_VERSION, 4)))
  {
    hide LE, BE;
  }

  lemma CompatPut(d: Descriptor)
    ensures CompatF().put(CompatOf(d)) == CompatBytes(d)
  {
    hide LE, BE, TargetF, TextF, EndingF;
    EndingPut(d);
    var a, b, c := LE(d.kind, 4), TargetF().put(TargetOf(d)), TextF().put(TextOf(d));
    var p, g, x, v := LE(d.policyGeneration, 8), LE(d.generation, 8), BE(d.dependencyDigest, 32), LE(PROTOCOL_VERSION, 4);
    assert CompatF().put(CompatOf(d)) == a + (b + (c + (p + (g + (x + v)))));
    assert CompatBytes(d) == a + b + c + p + g + x + v;
  }

  lemma CompatOk(d: Descriptor)
    requires TextFits(d)
    ensures CompatF().ok(CompatOf(d))
  {
  }

  lemma SameFormIff(d: Descriptor, e: Descriptor)
    ensures CompatOf(d) == CompatOf(e) <==> SameForm(d, e)
  {
  }

  /** Two descriptors whose text is within bounds are hashed as the same bytes exactly when they
      have the same form: no two lists of fields run into each other. */
  lemma CompatBytesDistinguish(d: Descriptor, e: Descriptor)
    requires TextFits(d) && TextFits(e)
    ensures CompatBytes(d) == CompatBytes(e) <==> SameForm(d, e)
  {
    hide CompatBytes, CompatF, CompatOf, SameForm;
    CompatLaw();
    CompatPut(d);
    CompatPut(e);
    CompatOk(d);
    CompatOk(e);
    SameFormIff(d, e);
    if CompatBytes(d) == CompatBytes(e) { PutInjective(CompatF(), CompatOf(d), CompatOf(e)); }
  }

  /** And identifiers are derived from the same bytes exactly when, besides, the producer is the
      same. */
  lemma DerivationBytesDistinguish(d: Descriptor, e: Descriptor)
    requires TextFits(d) && TextFits(e)
    ensures DerivationBytes(d) == DerivationBytes(e) <==> SameForm(d, e) && d.producer == e.producer
  {
    hide CompatBytes, SameForm, LE, BE;
    CompatBytesDistinguish(d, e);
    if DerivationBytes(d) == DerivationBytes(e) {
      SplitTail(CompatBytes(d) + LE(d.generation, 8), BE(d.producer, 16), CompatBytes(e) + LE(e.generation, 8), BE(e.producer, 16));
      SplitTail(CompatBytes(d), LE(d.generation, 8), CompatBytes(e), LE(e.generation, 8));
      BigEndian16(d.producer);
      BigEndian16(e.producer);
    } else if SameForm(d, e) {
      SameGeneration(d, e);
    }
  }

  lemma SameGeneration(d: Descriptor, e: Descriptor)
    requires SameForm(d, e)
    ensures d.generation == e.generation
  {
  }

  lemma SplitTail(a: Bytes, x: Bytes, b: Bytes, y: Bytes)
    requires a + x == b + y && |x| == |y|
    ensures a == b && x == y
  {
    assert a == (a + x)[..|a|] && b == (b + y)[..|b|];
    assert x == (a + x)[|a|..] && y == (b + y)[|b|..];
  }

  /** A derived identifier is the first sixteen bytes of the digest. */
  lemma IdIsLeadingBytes(x: Digest)
    ensures IdOfDigest(x) == FromBE(BE(x, 32)[..16])
  {
    Widths();
    LeadingBytes(x, 32, 16);
    BigEndian16(IdOfDigest(x));
  }

  /** Two descriptors are given the same identifier exactly when they have the same form and the
      same producer, unless the first sixteen bytes of their digests collide. */
  lemma SameIdIff(h: Bytes -> Digest, d: Descriptor, e: Descriptor)
    requires TextFits(d) && TextFits(e)
    requires var x, y := DerivationBytes(d), DerivationBytes(e);
      BE(h(x), 32)[..16] == BE(h(y), 32)[..16] ==> x == y
    ensures DeriveId(h, d) == DeriveId(h, e) <==> SameForm(d, e) && d.producer == e.producer
  {
    hide DerivationBytes, SameForm, BE;
    DerivationBytesDistinguish(d, e);
    var x, y := h(DerivationBytes(d)), h(DerivationBytes(e));
    IdIsLeadingBytes(x);
    IdIsLeadingBytes(y);
    Widths();
    LeadingBytes(x, 32, 16);
    LeadingBytes(y, 32, 16);
  }

  /** The two inputs do not collide. */
  predicate Apart(h: Bytes -> Digest, a: Bytes, b: Bytes) { h(a) == h(b) ==> a == b }

  /** After their digests are refreshed, two descriptors that can be stored have the same
      compatibility digest exactly when they have the same form, and the same metadata digest
      exactly when they were the same, unless the digests collide. */
  lemma DigestsDistinguish(h: Bytes -> Digest, d: Descriptor, e: Descriptor, x: Descriptor, y: Descriptor)
    requires Storable(d) && Storable(e) && Refresh(h, d) == Returned(x) && Refresh(h, e) == Returned(y)
    requires Apart(h, CompatBytes(d), CompatBytes(e)) && Apart(h, DescriptorF().put(d), DescriptorF().put(e))
    ensures x.compatibilityDigest == y.compatibilityDigest <==> SameForm(d, e)
    ensures x.metadataDigest == y.metadataDigest <==> d == e
    ensures x == d.(metadataDigest := x.metadataDigest, compatibilityDigest := x.compatibilityDigest)
  {
    hide DescriptorF, CompatBytes, SameForm;
    CompatBytesDistinguish(d, e);
    DescriptorLaw();
    StorableIsOk(d);
    StorableIsOk(e);
    if DescriptorF().put(d) == DescriptorF().put(e) { PutInjective(DescriptorF(), d, e); }
  }

  // ---- the digests as they are computed -------------------------------------------------

  lemma Append(a: Bytes, b: Bytes, c: Bytes)
    ensures (a + b) + c == a + (b + c)
  {
  }

  /** `encode_compat_fields`. */
  method WriteCompatFields(e: Encoder, d: Descriptor) returns (r: Outcome<()>)
    modifies e
    ensures r == if TextFits(d) then Returned(()) else Threw(EncodeLimit)
    ensures r.Returned? ==> e.buf == old(e.buf) + CompatBytes(d)
  {
    hide TargetF, TextF, LE, BE;
    ghost var b, p := e.buf, LE(d.kind, 4);
    e.U32(d.kind);
    Append(b, p, TargetF().put(TargetOf(d)));
    p := p + TargetF().put(TargetOf(d));
    WriteTarget(e, d);
    Append(b, p, TextF().put(TextOf(d)));
    p := p + TextF().put(TextOf(d));
    var _ :- WriteText(e, d);
    Append(b, p, LE(d.policyGeneration, 8));
    p := p + LE(d.policyGeneration, 8);
    e.U64(d.policyGeneration);
    Append(b, p, LE(d.generation, 8));
    p := p + LE(d.generation, 8);
    e.U64(d.generation);
    Append(b, p, BE(d.dependencyDigest, 32));
    p := p + BE(d.dependencyDigest, 32);
    e.Digest(d.dependencyDigest);
    Append(b, p, LE(PROTOCOL_VERSION, 4));
    e.U32(PROTOCOL_VERSION);
    r := Returned(());
  }

  method ComputeId(h: Bytes -> Digest, d: Descriptor) returns (r: Outcome<Id>)
    ensures r == DeriveId(h, d)
  {
    hide CompatBytes;
    var e := new Encoder();
    var _ :- WriteCompatFields(e, d);
    e.U64(d.generation);
    e.Id(d.producer);
    assert e.buf == DerivationBytes(d);
    r := Returned(IdOfDigest(h(e.buf)));
  }

  method RefreshDigests(h: Bytes -> Digest, d: Descriptor) returns (r: Outcome<Descriptor>)
    ensures r == Refresh(h, d)
  {
    hide CompatBytes, DescriptorF;
    var e := new Encoder();
    var _ :- WriteDescriptor(e, d);
    assert e.buf == DescriptorF().put(d);
    var f := new Encoder();
    var written := WriteCompatFields(f, d);
    assert written.Returned?;
    assert f.buf == CompatBytes(d);
    r := Returned(d.(metadataDigest := h(e.buf), compatibilityDigest := h(f.buf)));
  }
}
