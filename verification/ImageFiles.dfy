/** Writing and reading the catalog image with the encoder and the decoder. */
module ImageFiles {
  import opened Types
  import opened Encoding
  import opened CrcFrames
  import opened Codec
  import opened DescriptorFormat
  import opened Persistence
  import opened Sorting
  import opened CatalogModel
  import opened CatalogImage

  // ---- writing --------------------------------------------------------------------------

  ghost predicate AllEncodable(ds: seq<Descriptor>) {
    forall i :: 0 <= i < |ds| ==> Encodable(ds[i])
  }

  ghost predicate AllFit(cs: seq<StoredContent>) {
    forall i :: 0 <= i < |cs| ==> |cs[i].1.1| <= MAX_FIELD
  }

  lemma OneMoreEncodable(ds: seq<Descriptor>, i: nat)
    requires i < |ds|
    ensures AllEncodable(ds[..i + 1]) <==> AllEncodable(ds[..i]) && Encodable(ds[i])
    ensures AllEncodable(ds) ==> Encodable(ds[i])
  {
    hide Encodable;
    assert ds[..i + 1] == ds[..i] + [ds[i]];
  }

  lemma OneMoreFits(cs: seq<StoredContent>, i: nat)
    requires i < |cs|
    ensures AllFit(cs[..i + 1]) <==> AllFit(cs[..i]) && |cs[i].1.1| <= MAX_FIELD
    ensures AllFit(cs) ==> |cs[i].1.1| <= MAX_FIELD
  {
  }

  /** Appending the next element of a list. */
  lemma ListGrows<T(!new)>(c: Format<T>, b: Bytes, n: nat, xs: seq<T>, i: nat)
    requires i < |xs|
    ensures (b + (LE(n, 4) + PutAll(c, xs[..i]))) + c.put(xs[i]) == b + (LE(n, 4) + PutAll(c, xs[..i + 1]))
  {
    PutAllSnoc(c, xs, i);
  }

  lemma ListPut<T(!new)>(c: Format<T>, max: nat, xs: seq<T>)
    ensures ListF(c, max).put(xs) == LE(|xs|, 4) + PutAll(c, xs)
    ensures PutAll(c, xs[..0]) == [] && xs[..|xs|] == xs
  {
  }

  method WriteDescriptors(e: Encoder, ds: seq<Descriptor>) returns (r: Outcome<()>)
    modifies e
    ensures r == if AllEncodable(ds) then Returned(()) else Threw(EncodeLimit)
    ensures r.Returned? ==> e.buf == old(e.buf) + ListF(DescriptorF(), MAX_U32).put(ds)
  {
    hide DescriptorF, ListF, AllEncodable, Encodable, PutAll;
    ghost var b, c := e.buf, DescriptorF();
    ListPut(c, MAX_U32, ds);
    NoneEncodable();
    e.LittleEndian(|ds|, 4);
    assert b + LE(|ds|, 4) == b + (LE(|ds|, 4) + []);
    for i := 0 to |ds|
      invariant e.buf == b + (LE(|ds|, 4) + PutAll(c, ds[..i])) && AllEncodable(ds[..i])
    {
      OneMoreEncodable(ds, i);
      ListGrows(c, b, |ds|, ds, i);
      var _ :- WriteDescriptor(e, ds[i]);
    }
    r := Returned(());
  }

  lemma NoneEncodable()
    ensures AllEncodable([])
  {
  }

  method WriteContent(e: Encoder, c: StoredContent) returns (r: Outcome<()>)
    modifies e
    ensures r == if |c.1.1| <= MAX_FIELD then Returned(()) else Threw(EncodeLimit)
    ensures r.Returned? ==> e.buf == old(e.buf) + ContentF().put(c)
  {
    ghost var f := Pair(U64F(), BytesF(MAX_FIELD, MAX_FIELD));
    PutFirst(e.buf, DigestF(), f, c);
    e.Digest(c.0);
    PutFirst(e.buf, U64F(), BytesF(MAX_FIELD, MAX_FIELD), c.1);
    e.U64(c.1.0);
    r := e.PutBytes(c.1.1, MAX_FIELD);
  }

  method WriteContents(e: Encoder, cs: seq<StoredContent>) returns (r: Outcome<()>)
    modifies e
    ensures r == if AllFit(cs) then Returned(()) else Threw(EncodeLimit)
    ensures r.Returned? ==> e.buf == old(e.buf) + ListF(ContentF(), MAX_U32).put(cs)
  {
    hide ContentF, ListF, AllFit, PutAll;
    ghost var b, c := e.buf, ContentF();
    ListPut(c, MAX_U32, cs);
    NoneFits();
    e.LittleEndian(|cs|, 4);
    assert b + LE(|cs|, 4) == b + (LE(|cs|, 4) + []);
    for i := 0 to |cs|
      invariant e.buf == b + (LE(|cs|, 4) + PutAll(c, cs[..i])) && AllFit(cs[..i])
    {
      OneMoreFits(cs, i);
      ListGrows(c, b, |cs|, cs, i);
      var _ :- WriteContent(e, cs[i]);
    }
    r := Returned(());
  }

  lemma NoneFits()
    ensures AllFit([])
  {
  }

  method WriteIds(e: Encoder, ids: seq<Id>)
    modifies e
    ensures e.buf == old(e.buf) + ListF(IdF(), MAX_U32).put(ids)
  {
    hide ListF, PutAll;
    ghost var b, c := e.buf, IdF();
    ListPut(c, MAX_U32, ids);
    e.LittleEndian(|ids|, 4);
    assert b + LE(|ids|, 4) == b + (LE(|ids|, 4) + []);
    for i := 0 to |ids|
      invariant e.buf == b + (LE(|ids|, 4) + PutAll(c, ids[..i]))
    {
      ListGrows(c, b, |ids|, ids, i);
      e.Id(ids[i]);
    }
  }

  method WriteSuccessors(e: Encoder, ss: seq<SuccessorList>)
    modifies e
    ensures e.buf == old(e.buf) + ListF(SuccessorF(), MAX_U32).put(ss)
  {
    ghost var b, c := e.buf, SuccessorF();
    ListPut(c, MAX_U32, ss);
    e.LittleEndian(|ss|, 4);
    assert b + LE(|ss|, 4) == b + (LE(|ss|, 4) + []);
    for i := 0 to |ss|
      invariant e.buf == b + (LE(|ss|, 4) + PutAll(c, ss[..i]))
    {
      hide ListF, PutAll;
      ListGrows(c, b, |ss|, ss, i);
      PutFirst(e.buf, IdF(), ListF(IdF(), MAX_U32), ss[i]);
      e.Id(ss[i].0);
      WriteIds(e, ss[i].1);
    }
  }

  /** The body of `save`, on what it reads from the catalog. */
  method WriteImage(e: Encoder, v: Image) returns (r: Outcome<()>)
    modifies e
    ensures var (_, (_, (epoch, (boot, (next, (ds, (cs, ss))))))) := v;
      r == if AllEncodable(ds) && AllFit(cs) then Returned(()) else Threw(EncodeLimit)
    ensures r.Returned? ==> e.buf == old(e.buf) + ImageF().put(v)
  {
    hide DescriptorF, ContentF, SuccessorF, ListF, AllEncodable, AllFit;
    ghost var ds, cs, ss := ListF(DescriptorF(), MAX_U32), ListF(ContentF(), MAX_U32), ListF(SuccessorF(), MAX_U32);
    ghost var f6 := Pair(cs, ss);
    ghost var f5 := Pair(ds, f6);
    ghost var f4 := Pair(U64F(), f5);
    ghost var f3 := Pair(IdF(), f4);
    ghost var f2 := Pair(U64F(), f3);
    ghost var f1 := Pair(MarkF(IMAGE_SCHEMA, BadSchema), f2);
    PutFirst(e.buf, MarkF(IMAGE_MAGIC, BadMagic), f1, v);
    e.U32(IMAGE_MAGIC);
    PutFirst(e.buf, MarkF(IMAGE_SCHEMA, BadSchema), f2, v.1);
    e.U32(IMAGE_SCHEMA);
    PutFirst(e.buf, U64F(), f3, v.1.1);
    e.U64(v.1.1.0);
    PutFirst(e.buf, IdF(), f4, v.1.1.1);
    e.Id(v.1.1.1.0);
    PutFirst(e.buf, U64F(), f5, v.1.1.1.1);
    e.U64(v.1.1.1.1.0);
    PutFirst(e.buf, ds, f6, v.1.1.1.1.1);
    var _ :- WriteDescriptors(e, v.1.1.1.1.1.0);
    PutFirst(e.buf, cs, ss, v.1.1.1.1.1.1);
    var _ :- WriteContents(e, v.1.1.1.1.1.1.0);
    WriteSuccessors(e, v.1.1.1.1.1.1.1);
    r := Returned(());
  }

  // ---- reading --------------------------------------------------------------------------

  method ReadDescriptors(d: Decoder) returns (r: Outcome<seq<Descriptor>>)
    requires d.Valid()
    modifies d
    ensures d.Valid() && Reads(ListF(DescriptorF(), MAX_U32), old(d.Rest()), r, d.Rest())
  {
    hide DescriptorF, ListF;
    ghost var c := DescriptorF();
    ListReads(c, MAX_U32, d.Rest());
    var n :- d.U32();
    ghost var s := d.Rest();
    var xs: seq<Descriptor> := [];
    for i := 0 to n
      invariant d.Valid() && GetMany(c, i, s) == Got(xs, d.Rest())
    {
      ManyStep(c, i, n, s);
      var x :- ReadDescriptor(d);
      xs := xs + [x];
    }
    r := Returned(xs);
  }

  method ReadContent(d: Decoder) returns (r: Outcome<StoredContent>)
    requires d.Valid()
    modifies d
    ensures d.Valid() && Reads(ContentF(), old(d.Rest()), r, d.Rest())
  {
    ghost var b := BytesF(MAX_FIELD, MAX_FIELD);
    GetFirst(DigestF(), Pair(U64F(), b), d.Rest());
    var cd :- d.Digest();
    GetFirst(U64F(), b, d.Rest());
    var references :- d.U64();
    var bytes :- d.Str(MAX_FIELD, MAX_FIELD);
    r := Returned((cd, (references, bytes)));
  }

  method ReadContents(d: Decoder) returns (r: Outcome<seq<StoredContent>>)
    requires d.Valid()
    modifies d
    ensures d.Valid() && Reads(ListF(ContentF(), MAX_U32), old(d.Rest()), r, d.Rest())
  {
    hide ContentF, ListF;
    ghost var c := ContentF();
    ListReads(c, MAX_U32, d.Rest());
    var n :- d.U32();
    ghost var s := d.Rest();
    var xs: seq<StoredContent> := [];
    for i := 0 to n
      invariant d.Valid() && GetMany(c, i, s) == Got(xs, d.Rest())
    {
      ManyStep(c, i, n, s);
      var x :- ReadContent(d);
      xs := xs + [x];
    }
    r := Returned(xs);
  }

  method ReadIds(d: Decoder) returns (r: Outcome<seq<Id>>)
    requires d.Valid()
    modifies d
    ensures d.Valid() && Reads(ListF(IdF(), MAX_U32), old(d.Rest()), r, d.Rest())
  {
    hide IdF, ListF;
    ghost var c := IdF();
    ListReads(c, MAX_U32, d.Rest());
    var n :- d.U32();
    ghost var s := d.Rest();
    var xs: seq<Id> := [];
    for i := 0 to n
      invariant d.Valid() && GetMany(c, i, s) == Got(xs, d.Rest())
    {
      ManyStep(c, i, n, s);
      var x :- d.Id();
      xs := xs + [x];
    }
    r := Returned(xs);
  }

  method ReadSuccessor(d: Decoder) returns (r: Outcome<SuccessorList>)
    requires d.Valid()
    modifies d
    ensures d.Valid() && Reads(SuccessorF(), old(d.Rest()), r, d.Rest())
  {
    hide ListF;
    GetFirst(IdF(), ListF(IdF(), MAX_U32), d.Rest());
    var k :- d.Id();
    var ids :- ReadIds(d);
    r := Returned((k, ids));
  }

  method ReadSuccessors(d: Decoder) returns (r: Outcome<seq<SuccessorList>>)
    requires d.Valid()
    modifies d
    ensures d.Valid() && Reads(ListF(SuccessorF(), MAX_U32), old(d.Rest()), r, d.Rest())
  {
    hide SuccessorF, ListF;
    ghost var c := SuccessorF();
    ListReads(c, MAX_U32, d.Rest());
    var n :- d.U32();
    ghost var s := d.Rest();
    var xs: seq<SuccessorList> := [];
    for i := 0 to n
      invariant d.Valid() && GetMany(c, i, s) == Got(xs, d.Rest())
    {
      ManyStep(c, i, n, s);
      var x :- ReadSuccessor(d);
      xs := xs + [x];
    }
    r := Returned(xs);
  }

  method ReadImage(d: Decoder) returns (r: Outcome<Image>)
    requires d.Valid()
    modifies d
    ensures d.Valid() && Reads(ImageF(), old(d.Rest()), r, d.Rest())
  {
    hide DescriptorF, ContentF, SuccessorF, ListF, MarkF, U64F, IdF;
    ghost var ds, cs, ss := ListF(DescriptorF(), MAX_U32), ListF(ContentF(), MAX_U32), ListF(SuccessorF(), MAX_U32);
    ghost var f6 := Pair(cs, ss);
    ghost var f5 := Pair(ds, f6);
    ghost var f4 := Pair(U64F(), f5);
    ghost var f3 := Pair(IdF(), f4);
    ghost var f2 := Pair(U64F(), f3);
    ghost var f1 := Pair(MarkF(IMAGE_SCHEMA, BadSchema), f2);
    GetFirst(MarkF(IMAGE_MAGIC, BadMagic), f1, d.Rest());
    var v0 :- d.Mark(IMAGE_MAGIC, BadMagic);
    GetFirst(MarkF(IMAGE_SCHEMA, BadSchema), f2, d.Rest());
    var v1 :- d.Mark(IMAGE_SCHEMA, BadSchema);
    GetFirst(U64F(), f3, d.Rest());
    var epoch :- d.U64();
    GetFirst(IdF(), f4, d.Rest());
    var boot :- d.Id();
    GetFirst(U64F(), f5, d.Rest());
    var next :- d.U64();
    GetFirst(ds, f6, d.Rest());
    var descriptors :- ReadDescriptors(d);
    GetFirst(cs, ss, d.Rest());
    var contents :- ReadContents(d);
    var successors :- ReadSuccessors(d);
    r := Returned((v0, (v1, (epoch, (boot, (next, (descriptors, (contents, successors))))))));
  }

  method DecodeImage(image: Bytes) returns (r: Outcome<Image>)
    ensures r == Decode(ImageF(), image)
  {
    hide ImageF;
    var payload :- VerifyCrcFrame(image);
    var d := new Decoder(payload);
    var v :- ReadImage(d);
    var _ :- d.RequireEnd();
    r := Returned(v);
  }
}
