/** The wire protocol: message frames, requests and responses. */
module Protocol {
  import opened Types
  import opened Encoding
  import opened CrcFrames
  import opened Codec
  import opened DescriptorFormat
  import opened Persistence

  const FRAME_MAGIC: U32 := 0x46524146
  const FRAME_VERSION: Byte := 1
  const HEADER_LENGTH: nat := 13
  const MAX_PAYLOAD: nat := 0x400_0000

  type MessageType = t: nat | t <= 13

  datatype Frame = Frame(kind: MessageType, payload: Bytes)

  // ---- frames ---------------------------------------------------------------------------

  function Header(kind: nat, len: nat): (r: Bytes)
    ensures |r| == HEADER_LENGTH
  {
    LE(FRAME_MAGIC, 4) + [FRAME_VERSION] + LE(kind, 4) + LE(len, 4)
  }

  function EncodeFrame(f: Frame): Outcome<Bytes> {
    if |f.payload| > MAX_PAYLOAD then Threw(TooLong)
    else Returned(Seal(Header(f.kind, |f.payload|) + f.payload))
  }

  /** The checks in their order: size, CRC, magic, version, length bound, exact length, type. */
  function DecodeFrame(bytes: Bytes): Outcome<Frame> {
    if |bytes| < HEADER_LENGTH + 4 then Threw(FrameTooShort)
    else
      var s :- Open(bytes);
      var magic, version, kind, len := FromLE(s[..4]), s[4], FromLE(s[5..9]), FromLE(s[9..13]);
      if magic != FRAME_MAGIC then Threw(BadMagic)
      else if version != FRAME_VERSION then Threw(BadSchema)
      else if len > MAX_PAYLOAD then Threw(TooLong)
      else if |s| != HEADER_LENGTH + len then Threw(BadLength)
      else if kind > 13 then Threw(InvalidEnum)
      else Returned(Frame(kind, s[HEADER_LENGTH..]))
  }

  lemma HeaderReadsBack(kind: nat, len: nat, tail: Bytes)
    requires kind < 0x1_0000_0000 && len < 0x1_0000_0000
    ensures var s := Header(kind, len) + tail;
      && FromLE(s[..4]) == FRAME_MAGIC && s[4] == FRAME_VERSION && FromLE(s[5..9]) == kind && FromLE(s[9..13]) == len
      && s[HEADER_LENGTH..] == tail
  {
    var s := Header(kind, len) + tail;
    LittleEndian4(FRAME_MAGIC);
    LittleEndian4(kind);
    LittleEndian4(len);
    hide LE, FromLE;
    assert s[..4] == LE(FRAME_MAGIC, 4);
    assert s[5..9] == LE(kind, 4);
    assert s[9..13] == LE(len, 4);
  }

  /** Every frame that is encoded is decoded to the same type and payload. */
  lemma FrameRoundTrip(f: Frame)
    requires |f.payload| <= MAX_PAYLOAD
    ensures EncodeFrame(f).Returned? && DecodeFrame(EncodeFrame(f).value) == Returned(f)
  {
    hide Header, Open, Seal;
    var s := Header(f.kind, |f.payload|) + f.payload;
    HeaderReadsBack(f.kind, |f.payload|, f.payload);
    OpenSeal(s);
    SealLength(s);
  }

  lemma SealLength(s: Bytes)
    ensures |Seal(s)| == |s| + 4
  {
  }

  /** An accepted frame has exactly the length it declares. */
  lemma AcceptedLength(bytes: Bytes)
    requires DecodeFrame(bytes).Returned?
    ensures |bytes| >= HEADER_LENGTH + 4 && |bytes| == HEADER_LENGTH + 4 + FromLE(bytes[9..13])
  {
    hide FromLE;
    assert bytes[..|bytes| - 4][9..13] == bytes[9..13];
  }

  lemma OneLength(bytes: Bytes, more: Bytes)
    requires DecodeFrame(bytes).Returned? && DecodeFrame(bytes + more).Returned?
    ensures more == []
  {
    hide DecodeFrame, FromLE;
    AcceptedLength(bytes);
    assert (bytes + more)[9..13] == bytes[9..13];
    AcceptedLength(bytes + more);
  }

  /** No accepted frame can be cut short or lengthened into another accepted frame, whatever
      its CRC. */
  lemma FramesRigid(bytes: Bytes, k: nat, more: Bytes)
    requires DecodeFrame(bytes).Returned? && k < |bytes| && more != []
    ensures DecodeFrame(bytes[..k]).Threw?
    ensures DecodeFrame(bytes + more).Threw?
  {
    hide DecodeFrame;
    if DecodeFrame(bytes[..k]).Returned? {
      assert bytes == bytes[..k] + bytes[k..];
      OneLength(bytes[..k], bytes[k..]);
    }
    if DecodeFrame(bytes + more).Returned? { OneLength(bytes, more); }
  }

  method WriteFrame(f: Frame) returns (r: Outcome<Bytes>)
    ensures r == EncodeFrame(f)
  {
    hide LE;
    if |f.payload| > MAX_PAYLOAD { return Threw(TooLong); }
    var e := new Encoder();
    e.U32(FRAME_MAGIC);
    e.Byte(FRAME_VERSION);
    e.U32(f.kind);
    e.U32(|f.payload|);
    assert e.buf == Header(f.kind, |f.payload|);
    e.Raw(f.payload);
    var frame := e.Finalize();
    r := Returned(frame);
  }

  /** The reader takes the header fields one after the other. */
  lemma FieldsOf(s: Bytes)
    requires |s| >= HEADER_LENGTH
    ensures s[4..][0] == s[4] && s[4..][1..] == s[5..] && s[5..][..4] == s[5..9] && s[5..][4..] == s[9..]
    ensures s[9..][..4] == s[9..13] && s[9..][4..] == s[13..]
  {
  }

  method ReadFrame(bytes: Bytes) returns (r: Outcome<Frame>)
    ensures r == DecodeFrame(bytes)
  {
    hide FromLE;
    if |bytes| < HEADER_LENGTH + 4 { return Threw(FrameTooShort); }
    var s :- VerifyCrcFrame(bytes);
    FieldsOf(s);
    var d := new Decoder(s);
    var magic := d.LittleEndian(4);
    if magic.value != FRAME_MAGIC { return Threw(BadMagic); }
    var version := d.Byte();
    if version.value != FRAME_VERSION { return Threw(BadSchema); }
    var kindRead := d.LittleEndian(4);
    var lenRead := d.LittleEndian(4);
    var kind, len := kindRead.value, lenRead.value;
    if len > MAX_PAYLOAD { return Threw(TooLong); }
    if |s| != HEADER_LENGTH + len { return Threw(BadLength); }
    var known := false;
    for m := 0 to 14
      invariant known <==> kind < m
    {
      if m == kind { known := true; break; }
    }
    if !known { return Threw(InvalidEnum); }
    r := Returned(Frame(kind, s[HEADER_LENGTH..]));
  }

  // ---- requests -------------------------------------------------------------------------

  /** The boot identifier of a request is not on the wire; the one in the envelope is. */
  datatype Request = Request(
    kind: MessageType, boot: Id, descriptor: Descriptor, content: Bytes, authority: Authority,
    artifactId: Id, artifactId2: Id, cause: Bytes, validationOk: bool)

  type Generations = (U64, (U64, (U64, (U64, (U64, (U64, (U64, (U64, U64))))))))
  type Envelope = (U64, (Id, (Id, (Id, (Id, Generations)))))
  type RequestFields = (U32, (Envelope, (Id, (Id, (Bytes, (bool, (Descriptor, Bytes)))))))

  function GenerationsF(): Format<Generations> {
    Pair(U64F(), Pair(U64F(), Pair(U64F(), Pair(U64F(), Pair(U64F(), Pair(U64F(), Pair(U64F(), Pair(U64F(), U64F()))))))))
  }

  function EnvelopeF(): Format<Envelope> {
    Pair(U64F(), Pair(IdF(), Pair(IdF(), Pair(IdF(), Pair(IdF(), GenerationsF())))))
  }

  function ContentF(): Format<Bytes> { BytesF(MAX_FIELD, MAX_FIELD) }

  function RequestFieldsF(): Format<RequestFields> {
    Pair(EnumF(13), Pair(EnvelopeF(), Pair(IdF(), Pair(IdF(), Pair(NameF(), Pair(FlagF(), Pair(DescriptorF(), ContentF())))))))
  }

  function GenerationsOf(a: Authority): Generations {
    (a.attemptGeneration, (a.producerGeneration, (a.artifactGeneration, (a.dependencyGeneration,
      (a.provenanceGeneration, (a.toolchainGeneration, (a.modelGeneration, (a.adapterGeneration,
      a.placementGeneration))))))))
  }

  function EnvelopeOf(a: Authority): Envelope {
    (a.epoch, (a.worker, (a.boot, (a.attempt, (a.producer, GenerationsOf(a))))))
  }

  function AuthorityOf(v: Envelope): Authority {
    var (epoch, (worker, (boot, (attempt, (producer, g))))) := v;
    Authority(epoch, worker, boot, attempt, producer, g.0, g.1.0, g.1.1.0, g.1.1.1.0, g.1.1.1.1.0, g.1.1.1.1.1.0,
              g.1.1.1.1.1.1.0, g.1.1.1.1.1.1.1.0, g.1.1.1.1.1.1.1.1)
  }

  function RequestFieldsOf(q: Request): RequestFields {
    (q.kind, (EnvelopeOf(q.authority), (q.artifactId, (q.artifactId2, (q.cause, (q.validationOk, (q.descriptor, q.content)))))))
  }

  function RequestOf(t: RequestFields): Outcome<Request> {
    var (kind, (v, (artifactId, (artifactId2, (cause, (validationOk, (descriptor, content))))))) := t;
    if kind > 13 then Threw(InvalidEnum)
    else Returned(Request(kind, 0, descriptor, content, AuthorityOf(v), artifactId, artifactId2, cause, validationOk))
  }

  function RequestF(): Format<Request> {
    Via(RequestFieldsF(), RequestFieldsOf, RequestOf)
  }

  predicate RequestFits(q: Request) {
    |q.cause| <= MAX_NAME && Encodable(q.descriptor) && |q.content| <= MAX_FIELD
  }

  function EncodeRequest(q: Request): Outcome<Bytes> {
    if RequestFits(q) then Returned(Seal(RequestF().put(q))) else Threw(EncodeLimit)
  }

  function DecodeRequest(body: Bytes): Outcome<Request> {
    Decode(RequestF(), body)
  }

  lemma GenerationsLaw()
    ensures Lawful(GenerationsF())
  {
    hide Lawful, U64F, Pair;
    U64Law();
    var u := U64F();
    PairLaw(u, u);
    PairLaw(u, Pair(u, u));
    PairLaw(u, Pair(u, Pair(u, u)));
    PairLaw(u, Pair(u, Pair(u, Pair(u, u))));
    PairLaw(u, Pair(u, Pair(u, Pair(u, Pair(u, u)))));
    PairLaw(u, Pair(u, Pair(u, Pair(u, Pair(u, Pair(u, u))))));
    PairLaw(u, Pair(u, Pair(u, Pair(u, Pair(u, Pair(u, Pair(u, u)))))));
    PairLaw(u, Pair(u, Pair(u, Pair(u, Pair(u, Pair(u, Pair(u, Pair(u, u))))))));
  }

  lemma EnvelopeLaw()
    ensures Lawful(EnvelopeF())
  {
    hide Lawful, U64F, IdF, Pair, GenerationsF;
    U64Law();
    IdLaw();
    GenerationsLaw();
    var i, g := IdF(), GenerationsF();
    PairLaw(i, g);
    PairLaw(i, Pair(i, g));
    PairLaw(i, Pair(i, Pair(i, g)));
    PairLaw(i, Pair(i, Pair(i, Pair(i, g))));
    PairLaw(U64F(), Pair(i, Pair(i, Pair(i, Pair(i, g)))));
  }

  lemma RequestFieldsLaw()
    ensures Lawful(RequestFieldsF())
  {
    hide Lawful, IdF, Pair, EnvelopeF, DescriptorF, ContentF, NameF, FlagF, EnumF;
    EnumLaw(13);
    EnvelopeLaw();
    IdLaw();
    NameLaw();
    FlagLaw();
    DescriptorLaw();
    ContentLaw();
    PairLaw(DescriptorF(), ContentF());
    var f6 := Pair(DescriptorF(), ContentF());
    PairLaw(FlagF(), f6);
    var f5 := Pair(FlagF(), f6);
    PairLaw(NameF(), f5);
    var f4 := Pair(NameF(), f5);
    PairLaw(IdF(), f4);
    var f3 := Pair(IdF(), f4);
    PairLaw(IdF(), f3);
    var f2 := Pair(IdF(), f3);
    PairLaw(EnvelopeF(), f2);
    PairLaw(EnumF(13), Pair(EnvelopeF(), f2));
  }

  lemma NameLaw()
    ensures Lawful(NameF())
  {
    BytesLaw(MAX_NAME, MAX_NAME);
  }

  lemma ContentLaw()
    ensures Lawful(ContentF())
  {
    BytesLaw(MAX_FIELD, MAX_FIELD);
  }

  lemma RequestLaw()
    ensures Lawful(RequestF())
  {
    hide Lawful, RequestFieldsF, RequestFieldsOf, RequestOf, Via;
    RequestFieldsLaw();
    ViaLaw(RequestFieldsF(), RequestFieldsOf, RequestOf);
    assert RequestF() == Via(RequestFieldsF(), RequestFieldsOf, RequestOf);
  }

  lemma AuthorityInverse(a: Authority)
    ensures AuthorityOf(EnvelopeOf(a)) == a
  {
  }

  lemma RequestInverse(q: Request)
    ensures RequestOf(RequestFieldsOf(q)) == Returned(q.(boot := 0))
  {
    AuthorityInverse(q.authority);
    hide AuthorityOf, EnvelopeOf;
  }

  lemma EnvelopeOk(a: Authority)
    ensures EnvelopeF().ok(EnvelopeOf(a))
  {
  }

  lemma RequestFieldsOk(q: Request)
    requires RequestFits(q)
    ensures RequestFieldsF().ok(RequestFieldsOf(q)) <==> Storable(q.descriptor)
  {
    hide EnvelopeF, DescriptorF, Storable, Encodable, EnumF, EnvelopeOf;
    EnumLaw(13);
    EnvelopeOk(q.authority);
    StorableIsOk(q.descriptor);
  }

  lemma RequestRefused(q: Request, i: nat)
    requires RequestFits(q) && i < |q.descriptor.placements| && !FinitePlacement(q.descriptor.placements[i])
    ensures Refuses(RequestF(), q, NotFinite)
  {
    hide Refuses, Lawful, IdF, EnvelopeF, DescriptorF, NameF, FlagF, ContentF, EnumF, Encodable, EnvelopeOf, FinitePlacement;
    DescriptorRefused(q.descriptor, i);
    EnumLaw(13);
    EnvelopeLaw();
    IdLaw();
    NameLaw();
    FlagLaw();
    EnvelopeOk(q.authority);
    SmallFieldsOk(q);
    var t := RequestFieldsOf(q);
    var f6 := Pair(DescriptorF(), ContentF());
    PairRefusesFirst(DescriptorF(), ContentF(), t.1.1.1.1.1.1, NotFinite);
    var f5 := Pair(FlagF(), f6);
    PairRefusesSecond(FlagF(), f6, t.1.1.1.1.1, NotFinite);
    var f4 := Pair(NameF(), f5);
    PairRefusesSecond(NameF(), f5, t.1.1.1.1, NotFinite);
    var f3 := Pair(IdF(), f4);
    PairRefusesSecond(IdF(), f4, t.1.1.1, NotFinite);
    var f2 := Pair(IdF(), f3);
    PairRefusesSecond(IdF(), f3, t.1.1, NotFinite);
    var f1 := Pair(EnvelopeF(), f2);
    PairRefusesSecond(EnvelopeF(), f2, t.1, NotFinite);
    PairRefusesSecond(EnumF(13), f1, t, NotFinite);
    ViaRefuses(RequestFieldsF(), RequestFieldsOf, RequestOf, q, NotFinite);
  }

  lemma SmallFieldsOk(q: Request)
    requires |q.cause| <= MAX_NAME
    ensures EnumF(13).ok(q.kind) && IdF().ok(q.artifactId) && IdF().ok(q.artifactId2) && NameF().ok(q.cause)
    ensures FlagF().ok(q.validationOk)
  {
    EnumLaw(13);
  }

  /** Of the requests that can be encoded, exactly those whose placement numbers are finite come
      back: unchanged but for the boot identifier, which is not sent. */
  lemma RequestRoundTrip(q: Request)
    requires RequestFits(q)
    ensures EncodeRequest(q).Returned?
    ensures DecodeRequest(EncodeRequest(q).value) ==
            if Storable(q.descriptor) then Returned(q.(boot := 0)) else Threw(NotFinite)
  {
    hide RequestFieldsF, RequestFieldsOf, RequestOf, Lawful, Refuses, Storable, Seal, Open;
    if Storable(q.descriptor) {
      RequestLaw();
      RequestInverse(q);
      RequestFieldsOk(q);
      RequestFieldsLaw();
      RequestReadsBack(q);
      OpenSeal(RequestF().put(q));
    } else {
      var i := NotStorable(q.descriptor);
      RequestRefused(q, i);
      DecodeRefuses(RequestF(), q, NotFinite);
    }
  }

  lemma NotStorable(d: Descriptor) returns (i: nat)
    requires Encodable(d) && !Storable(d)
    ensures i < |d.placements| && !FinitePlacement(d.placements[i])
  {
    hide Encodable, FinitePlacement;
    i :| 0 <= i < |d.placements| && !FinitePlacement(d.placements[i]);
  }

  lemma RequestReadsBack(q: Request)
    requires Lawful(RequestFieldsF()) && RequestFieldsF().ok(RequestFieldsOf(q))
    requires RequestOf(RequestFieldsOf(q)) == Returned(q.(boot := 0))
    ensures Whole(RequestF(), RequestF().put(q)) == Returned(q.(boot := 0))
  {
    hide RequestFieldsF, RequestFieldsOf, RequestOf;
    var c := RequestFieldsF();
    assert ReadsBack(c, RequestFieldsOf(q), []);
    assert RequestF().put(q) + [] == RequestF().put(q);
  }

  /** No accepted request body can be cut short or lengthened into another. */
  lemma RequestsRigid(body: Bytes, k: nat, more: Bytes)
    requires DecodeRequest(body).Returned? && k < |body| && more != []
    ensures DecodeRequest(body[..k]).Threw? && DecodeRequest(body + more).Threw?
  {
    hide RequestF, Lawful;
    RequestLaw();
    TruncationRejected(RequestF(), body, k);
    FramesArePrefixFree(RequestF(), body, more);
  }

  // ---- responses ------------------------------------------------------------------------

  datatype Response = Response(
    ok: bool, error: Bytes, artifactId: Id, contentDigest: Digest, epoch: U64, boot: Id, found: bool,
    descriptor: Descriptor, message: Bytes)

  type ResponseFields = (bool, (Bytes, (Id, (Digest, (U64, (Id, (bool, (Bytes, Descriptor))))))))

  function ResponseFieldsF(): Format<ResponseFields> {
    Pair(FlagF(), Pair(NameF(), Pair(IdF(), Pair(DigestF(), Pair(U64F(), Pair(IdF(), Pair(FlagF(), Pair(NameF(), DescriptorF()))))))))
  }

  function ResponseFieldsOf(p: Response): ResponseFields {
    (p.ok, (p.error, (p.artifactId, (p.contentDigest, (p.epoch, (p.boot, (p.found, (p.message, p.descriptor))))))))
  }

  function ResponseOf(t: ResponseFields): Outcome<Response> {
    var (ok, (error, (artifactId, (contentDigest, (epoch, (boot, (found, (message, descriptor)))))))) := t;
    Returned(Response(ok, error, artifactId, contentDigest, epoch, boot, found, descriptor, message))
  }

  function ResponseF(): Format<Response> {
    Via(ResponseFieldsF(), ResponseFieldsOf, ResponseOf)
  }

  predicate ResponseFits(p: Response) {
    |p.error| <= MAX_NAME && |p.message| <= MAX_NAME && Encodable(p.descriptor)
  }

  function EncodeResponse(p: Response): Outcome<Bytes> {
    if ResponseFits(p) then Returned(Seal(ResponseF().put(p))) else Threw(EncodeLimit)
  }

  function DecodeResponse(body: Bytes): Outcome<Response> {
    Decode(ResponseF(), body)
  }

  lemma ResponseFieldsLaw()
    ensures Lawful(ResponseFieldsF())
  {
    hide Lawful, IdF, U64F, DigestF, Pair, DescriptorF, NameF, FlagF;
    FlagLaw();
    NameLaw();
    IdLaw();
    DigestLaw();
    U64Law();
    DescriptorLaw();
    PairLaw(NameF(), DescriptorF());
    var f7 := Pair(NameF(), DescriptorF());
    PairLaw(FlagF(), f7);
    var f6 := Pair(FlagF(), f7);
    PairLaw(IdF(), f6);
    var f5 := Pair(IdF(), f6);
    PairLaw(U64F(), f5);
    var f4 := Pair(U64F(), f5);
    PairLaw(DigestF(), f4);
    var f3 := Pair(DigestF(), f4);
    PairLaw(IdF(), f3);
    var f2 := Pair(IdF(), f3);
    PairLaw(NameF(), f2);
    PairLaw(FlagF(), Pair(NameF(), f2));
  }

  lemma ResponseOk(p: Response)
    requires ResponseFits(p) && Storable(p.descriptor)
    ensures ResponseF().ok(p)
  {
    hide DescriptorF, Storable, Encodable;
    StorableIsOk(p.descriptor);
    assert ResponseFieldsF().ok(ResponseFieldsOf(p));
    assert ResponseOf(ResponseFieldsOf(p)) == Returned(p);
  }

  lemma ResponseLaw()
    ensures Lawful(ResponseF())
  {
    hide Lawful, ResponseFieldsF, ResponseFieldsOf, ResponseOf, Via;
    ResponseFieldsLaw();
    ViaLaw(ResponseFieldsF(), ResponseFieldsOf, ResponseOf);
    assert ResponseF() == Via(ResponseFieldsF(), ResponseFieldsOf, ResponseOf);
  }

  lemma ResponseRefused(p: Response, i: nat)
    requires ResponseFits(p) && i < |p.descriptor.placements| && !FinitePlacement(p.descriptor.placements[i])
    ensures Refuses(ResponseF(), p, NotFinite)
  {
    hide Refuses, Lawful, IdF, U64F, DigestF, DescriptorF, NameF, FlagF, Encodable, FinitePlacement;
    DescriptorRefused(p.descriptor, i);
    FlagLaw();
    NameLaw();
    IdLaw();
    DigestLaw();
    U64Law();
    SmallResponseOk(p);
    var t := ResponseFieldsOf(p);
    var f7 := Pair(NameF(), DescriptorF());
    PairRefusesSecond(NameF(), DescriptorF(), t.1.1.1.1.1.1.1, NotFinite);
    var f6 := Pair(FlagF(), f7);
    PairRefusesSecond(FlagF(), f7, t.1.1.1.1.1.1, NotFinite);
    var f5 := Pair(IdF(), f6);
    PairRefusesSecond(IdF(), f6, t.1.1.1.1.1, NotFinite);
    var f4 := Pair(U64F(), f5);
    PairRefusesSecond(U64F(), f5, t.1.1.1.1, NotFinite);
    var f3 := Pair(DigestF(), f4);
    PairRefusesSecond(DigestF(), f4, t.1.1.1, NotFinite);
    var f2 := Pair(IdF(), f3);
    PairRefusesSecond(IdF(), f3, t.1.1, NotFinite);
    var f1 := Pair(NameF(), f2);
    PairRefusesSecond(NameF(), f2, t.1, NotFinite);
    PairRefusesSecond(FlagF(), f1, t, NotFinite);
    ViaRefuses(ResponseFieldsF(), ResponseFieldsOf, ResponseOf, p, NotFinite);
  }

  lemma SmallResponseOk(p: Response)
    requires |p.error| <= MAX_NAME && |p.message| <= MAX_NAME
    ensures FlagF().ok(p.ok) && NameF().ok(p.error) && IdF().ok(p.artifactId) && DigestF().ok(p.contentDigest)
    ensures U64F().ok(p.epoch) && IdF().ok(p.boot) && FlagF().ok(p.found) && NameF().ok(p.message)
  {
  }

  /** Of the responses that can be encoded, exactly those whose placement numbers are finite
      come back, unchanged. */
  lemma ResponseRoundTrip(p: Response)
    requires ResponseFits(p)
    ensures EncodeResponse(p).Returned?
    ensures DecodeResponse(EncodeResponse(p).value) ==
            if Storable(p.descriptor) then Returned(p) else Threw(NotFinite)
  {
    hide ResponseF, Lawful, Refuses, Storable, Encodable;
    if Storable(p.descriptor) {
      ResponseLaw();
      ResponseOk(p);
      DecodeReadsBack(ResponseF(), p);
    } else {
      var i := NotStorable(p.descriptor);
      ResponseRefused(p, i);
      DecodeRefuses(ResponseF(), p, NotFinite);
    }
  }

  lemma ResponsesRigid(body: Bytes, k: nat, more: Bytes)
    requires DecodeResponse(body).Returned? && k < |body| && more != []
    ensures DecodeResponse(body[..k]).Threw? && DecodeResponse(body + more).Threw?
  {
    hide ResponseF, Lawful;
    ResponseLaw();
    TruncationRejected(ResponseF(), body, k);
    FramesArePrefixFree(ResponseF(), body, more);
  }

  // ---- requests and responses as they are written and read ------------------------------

  method WriteGenerations(e: Encoder, a: Authority)
    modifies e
    ensures e.buf == old(e.buf) + GenerationsF().put(GenerationsOf(a))
  {
    ghost var t := GenerationsOf(a);
    ghost var f7 := Pair(U64F(), U64F());
    ghost var f6 := Pair(U64F(), f7);
    ghost var f5 := Pair(U64F(), f6);
    ghost var f4 := Pair(U64F(), f5);
    ghost var f3 := Pair(U64F(), f4);
    ghost var f2 := Pair(U64F(), f3);
    ghost var f1 := Pair(U64F(), f2);
    PutFirst(e.buf, U64F(), f1, t);
    e.U64(a.attemptGeneration);
    PutFirst(e.buf, U64F(), f2, t.1);
    e.U64(a.producerGeneration);
    PutFirst(e.buf, U64F(), f3, t.1.1);
    e.U64(a.artifactGeneration);
    PutFirst(e.buf, U64F(), f4, t.1.1.1);
    e.U64(a.dependencyGeneration);
    PutFirst(e.buf, U64F(), f5, t.1.1.1.1);
    e.U64(a.provenanceGeneration);
    PutFirst(e.buf, U64F(), f6, t.1.1.1.1.1);
    e.U64(a.toolchainGeneration);
    PutFirst(e.buf, U64F(), f7, t.1.1.1.1.1.1);
    e.U64(a.modelGeneration);
    PutFirst(e.buf, U64F(), U64F(), t.1.1.1.1.1.1.1);
    e.U64(a.adapterGeneration);
    e.U64(a.placementGeneration);
  }

  method WriteEnvelope(e: Encoder, a: Authority)
    modifies e
    ensures e.buf == old(e.buf) + EnvelopeF().put(EnvelopeOf(a))
  {
    hide GenerationsF, GenerationsOf;
    ghost var t := EnvelopeOf(a);
    ghost var f4 := Pair(IdF(), GenerationsF());
    ghost var f3 := Pair(IdF(), f4);
    ghost var f2 := Pair(IdF(), f3);
    ghost var f1 := Pair(IdF(), f2);
    PutFirst(e.buf, U64F(), f1, t);
    e.U64(a.epoch);
    PutFirst(e.buf, IdF(), f2, t.1);
    e.Id(a.worker);
    PutFirst(e.buf, IdF(), f3, t.1.1);
    e.Id(a.boot);
    PutFirst(e.buf, IdF(), f4, t.1.1.1);
    e.Id(a.attempt);
    PutFirst(e.buf, IdF(), GenerationsF(), t.1.1.1.1);
    e.Id(a.producer);
    WriteGenerations(e, a);
  }

  method WriteRequest(e: Encoder, q: Request) returns (r: Outcome<()>)
    modifies e
    ensures r == if RequestFits(q) then Returned(()) else Threw(EncodeLimit)
    ensures r.Returned? ==> e.buf == old(e.buf) + RequestF().put(q)
  {
    hide EnvelopeF, EnvelopeOf, DescriptorF, Encodable;
    ghost var t := RequestFieldsOf(q);
    ghost var f6 := Pair(DescriptorF(), ContentF());
    ghost var f5 := Pair(FlagF(), f6);
    ghost var f4 := Pair(NameF(), f5);
    ghost var f3 := Pair(IdF(), f4);
    ghost var f2 := Pair(IdF(), f3);
    ghost var f1 := Pair(EnvelopeF(), f2);
    PutFirst(e.buf, EnumF(13), f1, t);
    e.U32(q.kind);
    PutFirst(e.buf, EnvelopeF(), f2, t.1);
    WriteEnvelope(e, q.authority);
    PutFirst(e.buf, IdF(), f3, t.1.1);
    e.Id(q.artifactId);
    PutFirst(e.buf, IdF(), f4, t.1.1.1);
    e.Id(q.artifactId2);
    PutFirst(e.buf, NameF(), f5, t.1.1.1.1);
    var _ :- e.Str(q.cause);
    PutFirst(e.buf, FlagF(), f6, t.1.1.1.1.1);
    e.Present(q.validationOk);
    PutFirst(e.buf, DescriptorF(), ContentF(), t.1.1.1.1.1.1);
    var _ :- WriteDescriptor(e, q.descriptor);
    var _ :- e.PutBytes(q.content, MAX_FIELD);
    r := Returned(());
  }

  method WriteResponse(e: Encoder, p: Response) returns (r: Outcome<()>)
    modifies e
    ensures r == if ResponseFits(p) then Returned(()) else Threw(EncodeLimit)
    ensures r.Returned? ==> e.buf == old(e.buf) + ResponseF().put(p)
  {
    hide DescriptorF, Encodable;
    ghost var t := ResponseFieldsOf(p);
    ghost var f7 := Pair(NameF(), DescriptorF());
    ghost var f6 := Pair(FlagF(), f7);
    ghost var f5 := Pair(IdF(), f6);
    ghost var f4 := Pair(U64F(), f5);
    ghost var f3 := Pair(DigestF(), f4);
    ghost var f2 := Pair(IdF(), f3);
    ghost var f1 := Pair(NameF(), f2);
    PutFirst(e.buf, FlagF(), f1, t);
    e.Present(p.ok);
    PutFirst(e.buf, NameF(), f2, t.1);
    var _ :- e.Str(p.error);
    PutFirst(e.buf, IdF(), f3, t.1.1);
    e.Id(p.artifactId);
    PutFirst(e.buf, DigestF(), f4, t.1.1.1);
    e.Digest(p.contentDigest);
    PutFirst(e.buf, U64F(), f5, t.1.1.1.1);
    e.U64(p.epoch);
    PutFirst(e.buf, IdF(), f6, t.1.1.1.1.1);
    e.Id(p.boot);
    PutFirst(e.buf, FlagF(), f7, t.1.1.1.1.1.1);
    e.Present(p.found);
    PutFirst(e.buf, NameF(), DescriptorF(), t.1.1.1.1.1.1.1);
    var _ :- e.Str(p.message);
    var _ :- WriteDescriptor(e, p.descriptor);
    r := Returned(());
  }

  method ReadGenerations(d: Decoder) returns (r: Outcome<Generations>)
    requires d.Valid()
    modifies d
    ensures d.Valid() && Reads(GenerationsF(), old(d.Rest()), r, d.Rest())
  {
    hide U64F, Pair;
    ghost var f7 := Pair(U64F(), U64F());
    ghost var f6 := Pair(U64F(), f7);
    ghost var f5 := Pair(U64F(), f6);
    ghost var f4 := Pair(U64F(), f5);
    ghost var f3 := Pair(U64F(), f4);
    ghost var f2 := Pair(U64F(), f3);
    ghost var f1 := Pair(U64F(), f2);
    GetFirst(U64F(), f1, d.Rest());
    var v0 :- d.U64();
    GetFirst(U64F(), f2, d.Rest());
    var v1 :- d.U64();
    GetFirst(U64F(), f3, d.Rest());
    var v2 :- d.U64();
    GetFirst(U64F(), f4, d.Rest());
    var v3 :- d.U64();
    GetFirst(U64F(), f5, d.Rest());
    var v4 :- d.U64();
    GetFirst(U64F(), f6, d.Rest());
    var v5 :- d.U64();
    GetFirst(U64F(), f7, d.Rest());
    var v6 :- d.U64();
    GetFirst(U64F(), U64F(), d.Rest());
    var v7 :- d.U64();
    var v8 :- d.U64();
    r := Returned((v0, (v1, (v2, (v3, (v4, (v5, (v6, (v7, v8)))))))));
  }

  method ReadEnvelope(d: Decoder) returns (r: Outcome<Envelope>)
    requires d.Valid()
    modifies d
    ensures d.Valid() && Reads(EnvelopeF(), old(d.Rest()), r, d.Rest())
  {
    hide U64F, IdF, GenerationsF, Pair;
    ghost var f4 := Pair(IdF(), GenerationsF());
    ghost var f3 := Pair(IdF(), f4);
    ghost var f2 := Pair(IdF(), f3);
    ghost var f1 := Pair(IdF(), f2);
    GetFirst(U64F(), f1, d.Rest());
    var v0 :- d.U64();
    GetFirst(IdF(), f2, d.Rest());
    var v1 :- d.Id();
    GetFirst(IdF(), f3, d.Rest());
    var v2 :- d.Id();
    GetFirst(IdF(), f4, d.Rest());
    var v3 :- d.Id();
    GetFirst(IdF(), GenerationsF(), d.Rest());
    var v4 :- d.Id();
    var v5 :- ReadGenerations(d);
    r := Returned((v0, (v1, (v2, (v3, (v4, v5))))));
  }

  method ReadRequestFields(d: Decoder) returns (r: Outcome<RequestFields>)
    requires d.Valid()
    modifies d
    ensures d.Valid() && Reads(RequestFieldsF(), old(d.Rest()), r, d.Rest())
  {
    hide IdF, EnvelopeF, DescriptorF, EnumF, FlagF, BytesF, Pair;
    ghost var f6 := Pair(DescriptorF(), ContentF());
    ghost var f5 := Pair(FlagF(), f6);
    ghost var f4 := Pair(NameF(), f5);
    ghost var f3 := Pair(IdF(), f4);
    ghost var f2 := Pair(IdF(), f3);
    ghost var f1 := Pair(EnvelopeF(), f2);
    GetFirst(EnumF(13), f1, d.Rest());
    var v0 :- d.Enum(13);
    GetFirst(EnvelopeF(), f2, d.Rest());
    var v1 :- ReadEnvelope(d);
    GetFirst(IdF(), f3, d.Rest());
    var v2 :- d.Id();
    GetFirst(IdF(), f4, d.Rest());
    var v3 :- d.Id();
    GetFirst(NameF(), f5, d.Rest());
    var v4 :- d.Str(MAX_NAME, MAX_NAME);
    GetFirst(FlagF(), f6, d.Rest());
    var v5 :- d.Present();
    GetFirst(DescriptorF(), ContentF(), d.Rest());
    var v6 :- ReadDescriptor(d);
    var v7 :- d.Str(MAX_FIELD, MAX_FIELD);
    r := Returned((v0, (v1, (v2, (v3, (v4, (v5, (v6, v7))))))));
  }

  method ReadResponseFields(d: Decoder) returns (r: Outcome<ResponseFields>)
    requires d.Valid()
    modifies d
    ensures d.Valid() && Reads(ResponseFieldsF(), old(d.Rest()), r, d.Rest())
  {
    hide IdF, U64F, DigestF, DescriptorF, FlagF, BytesF, Pair;
    ghost var f7 := Pair(NameF(), DescriptorF());
    ghost var f6 := Pair(FlagF(), f7);
    ghost var f5 := Pair(IdF(), f6);
    ghost var f4 := Pair(U64F(), f5);
    ghost var f3 := Pair(DigestF(), f4);
    ghost var f2 := Pair(IdF(), f3);
    ghost var f1 := Pair(NameF(), f2);
    GetFirst(FlagF(), f1, d.Rest());
    var v0 :- d.Present();
    GetFirst(NameF(), f2, d.Rest());
    var v1 :- d.Str(MAX_NAME, MAX_NAME);
    GetFirst(IdF(), f3, d.Rest());
    var v2 :- d.Id();
    GetFirst(DigestF(), f4, d.Rest());
    var v3 :- d.Digest();
    GetFirst(U64F(), f5, d.Rest());
    var v4 :- d.U64();
    GetFirst(IdF(), f6, d.Rest());
    var v5 :- d.Id();
    GetFirst(FlagF(), f7, d.Rest());
    var v6 :- d.Present();
    GetFirst(NameF(), DescriptorF(), d.Rest());
    var v7 :- d.Str(MAX_NAME, MAX_NAME);
    var v8 :- ReadDescriptor(d);
    r := Returned((v0, (v1, (v2, (v3, (v4, (v5, (v6, (v7, v8)))))))));
  }

  method SendRequest(x: Request) returns (r: Outcome<Bytes>)
    ensures r == EncodeRequest(x)
  {
    hide RequestF, RequestFits;
    var e := new Encoder();
    var _ :- WriteRequest(e, x);
    assert [] + RequestF().put(x) == RequestF().put(x);
    var body := e.Finalize();
    r := Returned(body);
  }

  method ReceiveRequest(body: Bytes) returns (r: Outcome<Request>)
    ensures r == DecodeRequest(body)
  {
    hide RequestFieldsF, RequestOf;
    var payload :- VerifyCrcFrame(body);
    var d := new Decoder(payload);
    var t :- ReadRequestFields(d);
    var x := RequestOf(t);
    if x.Threw? { return Threw(x.error); }
    var _ :- d.RequireEnd();
    r := x;
  }

  method SendResponse(x: Response) returns (r: Outcome<Bytes>)
    ensures r == EncodeResponse(x)
  {
    hide ResponseF, ResponseFits;
    var e := new Encoder();
    var _ :- WriteResponse(e, x);
    assert [] + ResponseF().put(x) == ResponseF().put(x);
    var body := e.Finalize();
    r := Returned(body);
  }

  method ReceiveResponse(body: Bytes) returns (r: Outcome<Response>)
    ensures r == DecodeResponse(body)
  {
    hide ResponseFieldsF, ResponseOf;
    var payload :- VerifyCrcFrame(body);
    var d := new Decoder(payload);
    var t :- ReadResponseFields(d);
    var x := ResponseOf(t);
    if x.Threw? { return Threw(x.error); }
    var _ :- d.RequireEnd();
    r := x;
  }
}
