/** The encoder and decoder as the program has them: a byte vector that is appended to, and a
    cursor that advances. */
module Persistence {
  import opened Types
  import opened Encoding
  import opened Crc32
  import opened CrcFrames
  import opened Codec
  import opened DescriptorFormat

  // ---- writing --------------------------------------------------------------------------

  class Encoder {
    var buf: Bytes

    constructor ()
      ensures buf == []
    {
      buf := [];
    }

    /** The byte loops of `u16`, `u32` and `u64`. */
    method LittleEndian(v: nat, width: nat)
      modifies this
      ensures buf == old(buf) + LE(v, width)
    {
      var x := v;
      for i := 0 to width
        invariant buf + LE(x, width - i) == old(buf) + LE(v, width)
      {
        assert LE(x, width - i) == [(x % 256) as Byte] + LE(x / 256, width - i - 1);
        assert buf + LE(x, width - i) == (buf + [(x % 256) as Byte]) + LE(x / 256, width - i - 1);
        buf := buf + [(x % 256) as Byte];
        x := x / 256;
      }
      assert buf + LE(x, 0) == buf;
    }

    method U32(v: U32)
      modifies this
      ensures buf == old(buf) + U32F().put(v)
    {
      LittleEndian(v, 4);
    }

    method U64(v: U64)
      modifies this
      ensures buf == old(buf) + U64F().put(v)
    {
      LittleEndian(v, 8);
    }

    method I64(v: I64)
      modifies this
      ensures buf == old(buf) + I64F().put(v)
    {
      LittleEndian(if v < 0 then v + 0x1_0000_0000_0000_0000 else v, 8);
    }

    method Id(x: Id)
      modifies this
      ensures buf == old(buf) + IdF().put(x)
    {
      buf := buf + BE(x, 16);
    }

    method Digest(x: Digest)
      modifies this
      ensures buf == old(buf) + DigestF().put(x)
    {
      buf := buf + BE(x, 32);
    }

    method Present(b: bool)
      modifies this
      ensures buf == old(buf) + FlagF().put(b)
    {
      buf := buf + [if b then 1 else 0];
    }

    method Byte(b: Byte)
      modifies this
      ensures buf == old(buf) + [b]
    {
      buf := buf + [b];
    }

    /** Bytes without a prefix. */
    method Raw(s: Bytes)
      modifies this
      ensures buf == old(buf) + s
    {
      buf := buf + s;
    }

    /** Length-prefixed bytes with an upper bound. */
    method PutBytes(s: Bytes, max: nat := MAX_FIELD) returns (r: Outcome<()>)
      requires max <= MAX_U32
      modifies this
      ensures r == if |s| <= max then Returned(()) else Threw(EncodeLimit)
      ensures r.Returned? ==> buf == old(buf) + Codec.PutBytes(s)
    {
      if |s| > max { return Threw(EncodeLimit); }
      U32(|s|);
      assert (old(buf) + LE(|s|, 4)) + s == old(buf) + (LE(|s|, 4) + s);
      buf := buf + s;
      r := Returned(());
    }

    method Str(s: Bytes) returns (r: Outcome<()>)
      modifies this
      ensures r == if |s| <= MAX_NAME then Returned(()) else Threw(EncodeLimit)
      ensures r.Returned? ==> buf == old(buf) + NameF().put(s)
    {
      r := PutBytes(s, MAX_NAME);
    }

    method OptionId(x: Option<Id>)
      modifies this
      ensures buf == old(buf) + OptionF(IdF()).put(x)
    {
      Present(x.Some?);
      if x.Some? {
        assert (old(buf) + PutFlag(true)) + IdF().put(x.value) == old(buf) + (PutFlag(true) + IdF().put(x.value));
        Id(x.value);
      }
    }

    method OptionU64(x: Option<U64>)
      modifies this
      ensures buf == old(buf) + OptionF(U64F()).put(x)
    {
      Present(x.Some?);
      if x.Some? {
        assert (old(buf) + PutFlag(true)) + U64F().put(x.value) == old(buf) + (PutFlag(true) + U64F().put(x.value));
        U64(x.value);
      }
    }

    /** The frame: everything written, and its CRC-32. */
    method Finalize() returns (frame: Bytes)
      ensures frame == Seal(buf)
    {
      var crc := Compute(buf);
      frame := buf + Trailer(crc);
    }
  }

  /** Appending a pair is appending its parts in turn. */
  lemma PutFirst<A(!new), B(!new)>(b: Bytes, c: Format<A>, d: Format<B>, p: (A, B))
    ensures b + Pair(c, d).put(p) == (b + c.put(p.0)) + d.put(p.1)
  {
    assert Pair(c, d).put(p) == c.put(p.0) + d.put(p.1);
  }

  predicate EndFits(d: Descriptor) {
    |d.reuseMetadata| <= MAX_NAME && |d.authorityMetadata| <= MAX_NAME
  }

  method WriteDependency(e: Encoder, d: DependencyRef)
    modifies e
    ensures e.buf == old(e.buf) + DependencyF().put(d)
  {
    ghost var t := DependencyFieldsOf(d);
    ghost var f3 := Pair(DigestF(), EnumF(3));
    ghost var f2 := Pair(U64F(), f3);
    ghost var f1 := Pair(IdF(), f2);
    PutFirst(e.buf, IdF(), f1, t);
    e.Id(d.artifact);
    PutFirst(e.buf, IdF(), f2, t.1);
    e.Id(d.dependencyId);
    PutFirst(e.buf, U64F(), f3, t.1.1);
    e.U64(d.generation);
    PutFirst(e.buf, DigestF(), EnumF(3), t.1.1.1);
    e.Digest(d.digest);
    e.U32(d.kind);
  }

  method WritePlacement(e: Encoder, p: Placement) returns (r: Outcome<()>)
    modifies e
    ensures r == if |p.locator| <= MAX_NAME then Returned(()) else Threw(EncodeLimit)
    ensures r.Returned? ==> e.buf == old(e.buf) + PlacementF().put(p)
  {
    ghost var t := PlacementFieldsOf(p);
    ghost var f9 := Pair(FlagF(), FlagF());
    ghost var f8 := Pair(U64F(), f9);
    ghost var f7 := Pair(U64F(), f8);
    ghost var f6 := Pair(U64F(), f7);
    ghost var f5 := Pair(U64F(), f6);
    ghost var f4 := Pair(U64F(), f5);
    ghost var f3 := Pair(BytesF(MAX_NAME, MAX_FIELD), f4);
    ghost var f2 := Pair(EnumF(7), f3);
    ghost var f1 := Pair(IdF(), f2);
    PutFirst(e.buf, IdF(), f1, t);
    e.Id(p.id);
    PutFirst(e.buf, IdF(), f2, t.1);
    e.Id(p.location);
    PutFirst(e.buf, EnumF(7), f3, t.1.1);
    e.U32(p.kind);
    PutFirst(e.buf, BytesF(MAX_NAME, MAX_FIELD), f4, t.1.1.1);
    var _ :- e.Str(p.locator);
    PutFirst(e.buf, U64F(), f5, t.1.1.1.1);
    e.U64(p.byteSize);
    PutFirst(e.buf, U64F(), f6, t.1.1.1.1.1);
    e.U64(p.generation);
    PutFirst(e.buf, U64F(), f7, t.1.1.1.1.1.1);
    e.U64(p.locality);
    PutFirst(e.buf, U64F(), f8, t.1.1.1.1.1.1.1);
    e.U64(p.cost);
    PutFirst(e.buf, U64F(), f9, t.1.1.1.1.1.1.1.1);
    e.U64(p.readiness);
    PutFirst(e.buf, FlagF(), FlagF(), t.1.1.1.1.1.1.1.1.1);
    e.Present(p.integrityOk);
    e.Present(p.persistent);
    r := Returned(());
  }

  method WriteHead(e: Encoder, d: Descriptor)
    modifies e
    ensures e.buf == old(e.buf) + HeadF().put(HeadOf(d))
  {
    ghost var t := HeadOf(d);
    ghost var f9 := Pair(U64F(), I64F());
    ghost var f8 := Pair(IdF(), f9);
    ghost var f7 := Pair(U64F(), f8);
    ghost var f6 := Pair(IdF(), f7);
    ghost var f5 := Pair(DigestF(), f6);
    ghost var f4 := Pair(U64F(), f5);
    ghost var f3 := Pair(EnumF(13), f4);
    ghost var f2 := Pair(IdF(), f3);
    ghost var f1 := Pair(MarkF(DESCRIPTOR_SCHEMA, BadSchema), f2);
    PutFirst(e.buf, MarkF(IMAGE_MAGIC, BadMagic), f1, t);
    e.U32(IMAGE_MAGIC);
    PutFirst(e.buf, MarkF(DESCRIPTOR_SCHEMA, BadSchema), f2, t.1);
    e.U32(DESCRIPTOR_SCHEMA);
    PutFirst(e.buf, IdF(), f3, t.1.1);
    e.Id(d.id);
    PutFirst(e.buf, EnumF(13), f4, t.1.1.1);
    e.U32(d.kind);
    PutFirst(e.buf, U64F(), f5, t.1.1.1.1);
    e.U64(d.generation);
    PutFirst(e.buf, DigestF(), f6, t.1.1.1.1.1);
    e.Digest(d.contentDigest);
    PutFirst(e.buf, IdF(), f7, t.1.1.1.1.1.1);
    e.Id(d.producer);
    PutFirst(e.buf, U64F(), f8, t.1.1.1.1.1.1.1);
    e.U64(d.producerGeneration);
    PutFirst(e.buf, IdF(), f9, t.1.1.1.1.1.1.1.1);
    e.Id(d.provenance);
    PutFirst(e.buf, U64F(), I64F(), t.1.1.1.1.1.1.1.1.1);
    e.U64(d.provenanceGeneration);
    e.I64(d.createdNs);
  }

  method WriteTarget(e: Encoder, d: Descriptor)
    modifies e
    ensures e.buf == old(e.buf) + TargetF().put(TargetOf(d))
  {
    ghost var t := TargetOf(d);
    ghost var f6 := Pair(OptionF(IdF()), OptionF(IdF()));
    ghost var f5 := Pair(OptionF(IdF()), f6);
    ghost var f4 := Pair(OptionF(IdF()), f5);
    ghost var f3 := Pair(OptionF(U64F()), f4);
    ghost var f2 := Pair(OptionF(IdF()), f3);
    ghost var f1 := Pair(OptionF(U64F()), f2);
    PutFirst(e.buf, OptionF(IdF()), f1, t);
    e.OptionId(d.model);
    PutFirst(e.buf, OptionF(U64F()), f2, t.1);
    e.OptionU64(d.modelGeneration);
    PutFirst(e.buf, OptionF(IdF()), f3, t.1.1);
    e.OptionId(d.adapter);
    PutFirst(e.buf, OptionF(U64F()), f4, t.1.1.1);
    e.OptionU64(d.adapterGeneration);
    PutFirst(e.buf, OptionF(IdF()), f5, t.1.1.1.1);
    e.OptionId(d.runtime);
    PutFirst(e.buf, OptionF(IdF()), f6, t.1.1.1.1.1);
    e.OptionId(d.backend);
    PutFirst(e.buf, OptionF(IdF()), OptionF(IdF()), t.1.1.1.1.1.1);
    e.OptionId(d.compiler);
    e.OptionId(d.toolchain);
  }

  method WriteText(e: Encoder, d: Descriptor) returns (r: Outcome<()>)
    modifies e
    ensures r == if TextFits(d) then Returned(()) else Threw(EncodeLimit)
    ensures r.Returned? ==> e.buf == old(e.buf) + TextF().put(TextOf(d))
  {
    ghost var t := TextOf(d);
    ghost var f6 := Pair(NameF(), NameF());
    ghost var f5 := Pair(NameF(), f6);
    ghost var f4 := Pair(NameF(), f5);
    ghost var f3 := Pair(NameF(), f4);
    ghost var f2 := Pair(NameF(), f3);
    ghost var f1 := Pair(NameF(), f2);
    PutFirst(e.buf, U64F(), f1, t);
    e.U64(d.toolchainGeneration);
    PutFirst(e.buf, NameF(), f2, t.1);
    var _ :- e.Str(d.architecture);
    PutFirst(e.buf, NameF(), f3, t.1.1);
    var _ :- e.Str(d.computeCapability);
    PutFirst(e.buf, NameF(), f4, t.1.1.1);
    var _ :- e.Str(d.abi);
    PutFirst(e.buf, NameF(), f5, t.1.1.1.1);
    var _ :- e.Str(d.dtype);
    PutFirst(e.buf, NameF(), f6, t.1.1.1.1.1);
    var _ :- e.Str(d.layout);
    PutFirst(e.buf, NameF(), NameF(), t.1.1.1.1.1.1);
    var _ :- e.Str(d.shape);
    var _ :- e.Str(d.launchMetadata);
    r := Returned(());
  }

  method WriteState(e: Encoder, d: Descriptor) returns (r: Outcome<()>)
    modifies e
    ensures r == if |d.policyConfig| <= MAX_NAME then Returned(()) else Threw(EncodeLimit)
    ensures r.Returned? ==> e.buf == old(e.buf) + StateF().put(StateOf(d))
  {
    ghost var t := StateOf(d);
    ghost var f5 := Pair(ValidationF(), LifecycleF());
    ghost var f4 := Pair(U64F(), f5);
    ghost var f3 := Pair(NameF(), f4);
    ghost var f2 := Pair(DigestF(), f3);
    ghost var f1 := Pair(DigestF(), f2);
    PutFirst(e.buf, DigestF(), f1, t);
    e.Digest(d.dependencyDigest);
    PutFirst(e.buf, DigestF(), f2, t.1);
    e.Digest(d.metadataDigest);
    PutFirst(e.buf, DigestF(), f3, t.1.1);
    e.Digest(d.compatibilityDigest);
    PutFirst(e.buf, NameF(), f4, t.1.1.1);
    var _ :- e.Str(d.policyConfig);
    PutFirst(e.buf, U64F(), f5, t.1.1.1.1);
    e.U64(d.policyGeneration);
    PutFirst(e.buf, ValidationF(), LifecycleF(), t.1.1.1.1.1);
    e.U32(ValidationCode(d.validation));
    e.U32(LifecycleCode(d.lifecycle));
    r := Returned(());
  }

  method WriteEnd(e: Encoder, d: Descriptor) returns (r: Outcome<()>)
    modifies e
    ensures r == if EndFits(d) then Returned(()) else Threw(EncodeLimit)
    ensures r.Returned? ==> e.buf == old(e.buf) + EndF().put(EndOf(d))
  {
    ghost var t := EndOf(d);
    ghost var f1 := Pair(NameF(), NameF());
    PutFirst(e.buf, U64F(), f1, t);
    e.U64(d.sizeBytes);
    PutFirst(e.buf, NameF(), NameF(), t.1);
    var _ :- e.Str(d.reuseMetadata);
    var _ :- e.Str(d.authorityMetadata);
    r := Returned(());
  }

  lemma PutAllSnoc<T(!new)>(c: Format<T>, xs: seq<T>, i: nat)
    requires i < |xs|
    ensures PutAll(c, xs[..i + 1]) == PutAll(c, xs[..i]) + c.put(xs[i])
  {
    assert xs[..i + 1][..i] == xs[..i];
  }

  method WriteDependencies(e: Encoder, deps: seq<DependencyRef>) returns (r: Outcome<()>)
    modifies e
    ensures r == if |deps| <= MAX_COUNT then Returned(()) else Threw(EncodeLimit)
    ensures r.Returned? ==> e.buf == old(e.buf) + ListF(DependencyF(), MAX_COUNT).put(deps)
  {
    ghost var b := e.buf;
    e.LittleEndian(|deps|, 4);
    if |deps| > MAX_COUNT { return Threw(EncodeLimit); }
    for i := 0 to |deps|
      invariant e.buf == b + (LE(|deps|, 4) + PutAll(DependencyF(), deps[..i]))
    {
      PutAllSnoc(DependencyF(), deps, i);
      WriteDependency(e, deps[i]);
    }
    assert deps[..|deps|] == deps;
    r := Returned(());
  }

  ghost predicate LocatorsFit(ps: seq<Placement>) {
    forall i :: 0 <= i < |ps| ==> |ps[i].locator| <= MAX_NAME
  }

  lemma LocatorsFitSnoc(ps: seq<Placement>, i: nat)
    requires i < |ps| && LocatorsFit(ps[..i]) && |ps[i].locator| <= MAX_NAME
    ensures LocatorsFit(ps[..i + 1])
  {
  }

  method WritePlacements(e: Encoder, ps: seq<Placement>) returns (r: Outcome<()>)
    modifies e
    ensures r == if |ps| <= MAX_COUNT && LocatorsFit(ps) then Returned(()) else Threw(EncodeLimit)
    ensures r.Returned? ==> e.buf == old(e.buf) + ListF(PlacementF(), MAX_COUNT).put(ps)
  {
    ghost var b := e.buf;
    hide PlacementF;
    e.LittleEndian(|ps|, 4);
    if |ps| > MAX_COUNT { return Threw(EncodeLimit); }
    for i := 0 to |ps|
      invariant e.buf == b + (LE(|ps|, 4) + PutAll(PlacementF(), ps[..i]))
      invariant LocatorsFit(ps[..i])
    {
      PutAllSnoc(PlacementF(), ps, i);
      var _ :- WritePlacement(e, ps[i]);
      LocatorsFitSnoc(ps, i);
    }
    assert ps[..|ps|] == ps;
    r := Returned(());
  }

  /** `write_descriptor` throws on exactly the descriptors that exceed a limit, and otherwise
      appends the descriptor format. */
  method WriteDescriptor(e: Encoder, d: Descriptor) returns (r: Outcome<()>)
    modifies e
    ensures r == if Encodable(d) then Returned(()) else Threw(EncodeLimit)
    ensures r.Returned? ==> e.buf == old(e.buf) + DescriptorF().put(d)
  {
    hide HeadF, TargetF, TextF, StateF, EndF, ListF, DependencyF, PlacementF;
    ghost var t := PartsOf(d);
    ghost var deps, places := ListF(DependencyF(), MAX_COUNT), ListF(PlacementF(), MAX_COUNT);
    ghost var f5 := Pair(places, EndF());
    ghost var f4 := Pair(StateF(), f5);
    ghost var f3 := Pair(deps, f4);
    ghost var f2 := Pair(TextF(), f3);
    ghost var f1 := Pair(TargetF(), f2);
    PutFirst(e.buf, HeadF(), f1, t);
    WriteHead(e, d);
    PutFirst(e.buf, TargetF(), f2, t.1);
    WriteTarget(e, d);
    PutFirst(e.buf, TextF(), f3, t.1.1);
    var _ :- WriteText(e, d);
    PutFirst(e.buf, deps, f4, t.1.1.1);
    var _ :- WriteDependencies(e, d.dependencies);
    PutFirst(e.buf, StateF(), f5, t.1.1.1.1);
    var _ :- WriteState(e, d);
    PutFirst(e.buf, places, EndF(), t.1.1.1.1.1);
    var _ :- WritePlacements(e, d.placements);
    var _ :- WriteEnd(e, d);
    r := Returned(());
  }

  /** `encode_descriptor`. */
  method EncodeDescriptor(d: Descriptor) returns (r: Outcome<Bytes>)
    ensures r == DescriptorFormat.EncodeDescriptor(d)
  {
    var e := new Encoder();
    var _ :- WriteDescriptor(e, d);
    assert [] + DescriptorF().put(d) == DescriptorF().put(d);
    var frame := e.Finalize();
    r := Returned(frame);
  }

  // ---- reading --------------------------------------------------------------------------

  /** Reading from `before` gave `r` and left `after`. */
  ghost predicate Reads<T(!new)>(c: Format<T>, before: Bytes, r: Outcome<T>, after: Bytes) {
    match c.get(before)
    case Got(v, rest) => r == Returned(v) && after == rest
    case Bad(error) => r == Threw(error)
  }

  class Decoder {
    const data: Bytes
    var pos: nat

    ghost predicate Valid()
      reads this
    {
      pos <= |data|
    }

    ghost function Rest(): Bytes
      requires Valid()
      reads this
    {
      data[pos..]
    }

    constructor (bytes: Bytes)
      ensures Valid() && Rest() == bytes
    {
      data, pos := bytes, 0;
    }

    /** `need`, then the bytes. */
    method Take(n: nat) returns (r: Outcome<Bytes>)
      requires Valid()
      modifies this
      ensures Valid()
      ensures r.Returned? <==> n <= |old(Rest())|
      ensures r.Returned? ==> Codec.Take(old(Rest()), n) == Got(r.value, Rest())
      ensures r.Threw? ==> r.error == Truncated
    {
      if n > |data| - pos { return Threw(Truncated); }
      var s := data[pos..pos + n];
      pos := pos + n;
      assert data[old(pos)..][..n] == s && data[old(pos)..][n..] == data[pos..];
      r := Returned(s);
    }

    /** The byte loops of `u32` and `u64`. */
    method LittleEndian(width: nat) returns (r: Outcome<nat>)
      requires Valid()
      modifies this
      ensures Valid()
      ensures match Codec.Take(old(Rest()), width)
              case Got(b, rest) => r == Returned(FromLE(b)) && Rest() == rest
              case Bad(error) => r == Threw(error)
    {
      var b :- Take(width);
      ghost var rest := Rest();
      var v := 0;
      for i := 0 to width
        invariant Valid() && Rest() == rest
        invariant v == FromLE(b[..i])
      {
        FromLESnoc(b[..i], b[i]);
        assert b[..i + 1] == b[..i] + [b[i]];
        v := v + Pow256(i) * (b[i] as nat);
      }
      assert b[..width] == b;
      r := Returned(v);
    }

    method Byte() returns (r: Outcome<Byte>)
      requires Valid()
      modifies this
      ensures Valid()
      ensures match Codec.Take(old(Rest()), 1)
              case Got(b, rest) => r == Returned(b[0]) && Rest() == rest
              case Bad(error) => r == Threw(error)
    {
      var b :- Take(1);
      r := Returned(b[0]);
    }

    method U32() returns (r: Outcome<U32>)
      requires Valid()
      modifies this
      ensures Valid() && Reads(U32F(), old(Rest()), r, Rest())
    {
      ghost var b := Codec.Take(Rest(), 4);
      if b.Got? { FromLEBound(b.value); }
      Widths();
      r := LittleEndian(4);
    }

    method U64() returns (r: Outcome<U64>)
      requires Valid()
      modifies this
      ensures Valid() && Reads(U64F(), old(Rest()), r, Rest())
    {
      ghost var b := Codec.Take(Rest(), 8);
      if b.Got? { FromLEBound(b.value); }
      Widths();
      r := LittleEndian(8);
    }

    method I64() returns (r: Outcome<I64>)
      requires Valid()
      modifies this
      ensures Valid() && Reads(I64F(), old(Rest()), r, Rest())
    {
      var u :- U64();
      r := Returned(ToI64(u));
    }

    method Id() returns (r: Outcome<Id>)
      requires Valid()
      modifies this
      ensures Valid() && Reads(IdF(), old(Rest()), r, Rest())
    {
      var b :- Take(16);
      FromBEBound(b);
      Widths();
      r := Returned(FromBE(b));
    }

    method Digest() returns (r: Outcome<Digest>)
      requires Valid()
      modifies this
      ensures Valid() && Reads(DigestF(), old(Rest()), r, Rest())
    {
      var b :- Take(32);
      FromBEBound(b);
      Widths();
      r := Returned(FromBE(b));
    }

    method Present() returns (r: Outcome<bool>)
      requires Valid()
      modifies this
      ensures Valid() && Reads(FlagF(), old(Rest()), r, Rest())
    {
      var b :- Take(1);
      r := Returned(b[0] != 0);
    }

    /** `str_fixed` and `raw_vec`. */
    method Str(wmax: nat, max: nat) returns (r: Outcome<Bytes>)
      requires Valid()
      modifies this
      ensures Valid() && Reads(BytesF(wmax, max), old(Rest()), r, Rest())
    {
      var n :- U32();
      if n > max { return Threw(TooLong); }
      r := Take(n);
    }

    method Enum(limit: U32) returns (r: Outcome<U32>)
      requires Valid()
      modifies this
      ensures Valid() && Reads(EnumF(limit), old(Rest()), r, Rest())
    {
      var n :- U32();
      r := AtMost(limit, n);
    }

    method Mark(mark: U32, error: Error) returns (r: Outcome<()>)
      requires Valid()
      modifies this
      ensures Valid() && Reads(MarkF(mark, error), old(Rest()), r, Rest())
    {
      var n :- U32();
      r := if n == mark then Returned(()) else Threw(error);
    }

    method Validation() returns (r: Outcome<ValidationState>)
      requires Valid()
      modifies this
      ensures Valid() && Reads(ValidationF(), old(Rest()), r, Rest())
    {
      var n :- U32();
      r := ValidationOf(n);
    }

    method Lifecycle() returns (r: Outcome<LifecycleState>)
      requires Valid()
      modifies this
      ensures Valid() && Reads(LifecycleF(), old(Rest()), r, Rest())
    {
      var n :- U32();
      r := LifecycleOf(n);
    }

    method OptionId() returns (r: Outcome<Option<Id>>)
      requires Valid()
      modifies this
      ensures Valid() && Reads(OptionF(IdF()), old(Rest()), r, Rest())
    {
      var present :- Present();
      if !present { return Returned(None); }
      var x :- Id();
      r := Returned(Some(x));
    }

    method OptionU64() returns (r: Outcome<Option<U64>>)
      requires Valid()
      modifies this
      ensures Valid() && Reads(OptionF(U64F()), old(Rest()), r, Rest())
    {
      var present :- Present();
      if !present { return Returned(None); }
      var x :- U64();
      r := Returned(Some(x));
    }

    method RequireEnd() returns (r: Outcome<()>)
      requires Valid()
      ensures r == if Rest() == [] then Returned(()) else Threw(TrailingGarbage)
    {
      r := if pos != |data| then Threw(TrailingGarbage) else Returned(());
    }
  }

  lemma ShiftUp(low: nat, a: nat, p: nat, b: nat)
    ensures low + 256 * (a + p * b) == (low + 256 * a) + (256 * p) * b
  {
  }

  lemma {:induction false} FromLESnoc(s: Bytes, b: Byte)
    ensures FromLE(s + [b]) == FromLE(s) + Pow256(|s|) * (b as nat)
  {
    if s == [] {
      assert FromLE([b][1..]) == 0;
    } else {
      assert (s + [b])[1..] == s[1..] + [b];
      FromLESnoc(s[1..], b);
      ShiftUp(s[0] as nat, FromLE(s[1..]), Pow256(|s| - 1), b as nat);
    }
  }

  /** Reading a pair is reading its parts in turn. */
  lemma GetFirst<A(!new), B(!new)>(c: Format<A>, d: Format<B>, s: Bytes)
    ensures Pair(c, d).get(s) == GetPair(c, d, s)
  {
  }

  method ReadDependencyFields(d: Decoder) returns (r: Outcome<DependencyFields>)
    requires d.Valid()
    modifies d
    ensures d.Valid() && Reads(DependencyFieldsF(), old(d.Rest()), r, d.Rest())
  {
    ghost var f3 := Pair(DigestF(), EnumF(3));
    ghost var f2 := Pair(U64F(), f3);
    ghost var f1 := Pair(IdF(), f2);
    GetFirst(IdF(), f1, d.Rest());
    var v0 :- d.Id();
    GetFirst(IdF(), f2, d.Rest());
    var v1 :- d.Id();
    GetFirst(U64F(), f3, d.Rest());
    var v2 :- d.U64();
    GetFirst(DigestF(), EnumF(3), d.Rest());
    var v3 :- d.Digest();
    var v4 :- d.Enum(3);
    r := Returned((v0, (v1, (v2, (v3, v4)))));
  }

  method ReadPlacementFields(d: Decoder) returns (r: Outcome<PlacementFields>)
    requires d.Valid()
    modifies d
    ensures d.Valid() && Reads(PlacementFieldsF(), old(d.Rest()), r, d.Rest())
  {
    hide IdF, U64F, EnumF, BytesF, FlagF, Pair;
    ghost var f9 := Pair(FlagF(), FlagF());
    ghost var f8 := Pair(U64F(), f9);
    ghost var f7 := Pair(U64F(), f8);
    ghost var f6 := Pair(U64F(), f7);
    ghost var f5 := Pair(U64F(), f6);
    ghost var f4 := Pair(U64F(), f5);
    ghost var f3 := Pair(BytesF(MAX_NAME, MAX_FIELD), f4);
    ghost var f2 := Pair(EnumF(7), f3);
    ghost var f1 := Pair(IdF(), f2);
    GetFirst(IdF(), f1, d.Rest());
    var v0 :- d.Id();
    GetFirst(IdF(), f2, d.Rest());
    var v1 :- d.Id();
    GetFirst(EnumF(7), f3, d.Rest());
    var v2 :- d.Enum(7);
    GetFirst(BytesF(MAX_NAME, MAX_FIELD), f4, d.Rest());
    var v3 :- d.Str(MAX_NAME, MAX_FIELD);
    GetFirst(U64F(), f5, d.Rest());
    var v4 :- d.U64();
    GetFirst(U64F(), f6, d.Rest());
    var v5 :- d.U64();
    GetFirst(U64F(), f7, d.Rest());
    var v6 :- d.U64();
    GetFirst(U64F(), f8, d.Rest());
    var v7 :- d.U64();
    GetFirst(U64F(), f9, d.Rest());
    var v8 :- d.U64();
    GetFirst(FlagF(), FlagF(), d.Rest());
    var v9 :- d.Present();
    var v10 :- d.Present();
    r := Returned((v0, (v1, (v2, (v3, (v4, (v5, (v6, (v7, (v8, (v9, v10)))))))))));
  }

  method ReadHead(d: Decoder) returns (r: Outcome<Head>)
    requires d.Valid()
    modifies d
    ensures d.Valid() && Reads(HeadF(), old(d.Rest()), r, d.Rest())
  {
    hide IdF, U64F, I64F, EnumF, DigestF, MarkF, Pair;
    ghost var f9 := Pair(U64F(), I64F());
    ghost var f8 := Pair(IdF(), f9);
    ghost var f7 := Pair(U64F(), f8);
    ghost var f6 := Pair(IdF(), f7);
    ghost var f5 := Pair(DigestF(), f6);
    ghost var f4 := Pair(U64F(), f5);
    ghost var f3 := Pair(EnumF(13), f4);
    ghost var f2 := Pair(IdF(), f3);
    ghost var f1 := Pair(MarkF(DESCRIPTOR_SCHEMA, BadSchema), f2);
    GetFirst(MarkF(IMAGE_MAGIC, BadMagic), f1, d.Rest());
    var v0 :- d.Mark(IMAGE_MAGIC, BadMagic);
    GetFirst(MarkF(DESCRIPTOR_SCHEMA, BadSchema), f2, d.Rest());
    var v1 :- d.Mark(DESCRIPTOR_SCHEMA, BadSchema);
    GetFirst(IdF(), f3, d.Rest());
    var v2 :- d.Id();
    GetFirst(EnumF(13), f4, d.Rest());
    var v3 :- d.Enum(13);
    GetFirst(U64F(), f5, d.Rest());
    var v4 :- d.U64();
    GetFirst(DigestF(), f6, d.Rest());
    var v5 :- d.Digest();
    GetFirst(IdF(), f7, d.Rest());
    var v6 :- d.Id();
    GetFirst(U64F(), f8, d.Rest());
    var v7 :- d.U64();
    GetFirst(IdF(), f9, d.Rest());
    var v8 :- d.Id();
    GetFirst(U64F(), I64F(), d.Rest());
    var v9 :- d.U64();
    var v10 :- d.I64();
    r := Returned((v0, (v1, (v2, (v3, (v4, (v5, (v6, (v7, (v8, (v9, v10)))))))))));
  }

  method ReadTarget(d: Decoder) returns (r: Outcome<Target>)
    requires d.Valid()
    modifies d
    ensures d.Valid() && Reads(TargetF(), old(d.Rest()), r, d.Rest())
  {
    hide IdF, U64F, OptionF, Pair;
    ghost var f6 := Pair(OptionF(IdF()), OptionF(IdF()));
    ghost var f5 := Pair(OptionF(IdF()), f6);
    ghost var f4 := Pair(OptionF(IdF()), f5);
    ghost var f3 := Pair(OptionF(U64F()), f4);
    ghost var f2 := Pair(OptionF(IdF()), f3);
    ghost var f1 := Pair(OptionF(U64F()), f2);
    GetFirst(OptionF(IdF()), f1, d.Rest());
    var v0 :- d.OptionId();
    GetFirst(OptionF(U64F()), f2, d.Rest());
    var v1 :- d.OptionU64();
    GetFirst(OptionF(IdF()), f3, d.Rest());
    var v2 :- d.OptionId();
    GetFirst(OptionF(U64F()), f4, d.Rest());
    var v3 :- d.OptionU64();
    GetFirst(OptionF(IdF()), f5, d.Rest());
    var v4 :- d.OptionId();
    GetFirst(OptionF(IdF()), f6, d.Rest());
    var v5 :- d.OptionId();
    GetFirst(OptionF(IdF()), OptionF(IdF()), d.Rest());
    var v6 :- d.OptionId();
    var v7 :- d.OptionId();
    r := Returned((v0, (v1, (v2, (v3, (v4, (v5, (v6, v7))))))));
  }

  method ReadText(d: Decoder) returns (r: Outcome<Text>)
    requires d.Valid()
    modifies d
    ensures d.Valid() && Reads(TextF(), old(d.Rest()), r, d.Rest())
  {
    hide U64F, BytesF, Pair;
    ghost var f6 := Pair(NameF(), NameF());
    ghost var f5 := Pair(NameF(), f6);
    ghost var f4 := Pair(NameF(), f5);
    ghost var f3 := Pair(NameF(), f4);
    ghost var f2 := Pair(NameF(), f3);
    ghost var f1 := Pair(NameF(), f2);
    GetFirst(U64F(), f1, d.Rest());
    var v0 :- d.U64();
    GetFirst(NameF(), f2, d.Rest());
    var v1 :- d.Str(MAX_NAME, MAX_NAME);
    GetFirst(NameF(), f3, d.Rest());
    var v2 :- d.Str(MAX_NAME, MAX_NAME);
    GetFirst(NameF(), f4, d.Rest());
    var v3 :- d.Str(MAX_NAME, MAX_NAME);
    GetFirst(NameF(), f5, d.Rest());
    var v4 :- d.Str(MAX_NAME, MAX_NAME);
    GetFirst(NameF(), f6, d.Rest());
    var v5 :- d.Str(MAX_NAME, MAX_NAME);
    GetFirst(NameF(), NameF(), d.Rest());
    var v6 :- d.Str(MAX_NAME, MAX_NAME);
    var v7 :- d.Str(MAX_NAME, MAX_NAME);
    r := Returned((v0, (v1, (v2, (v3, (v4, (v5, (v6, v7))))))));
  }

  method ReadState(d: Decoder) returns (r: Outcome<Standing>)
    requires d.Valid()
    modifies d
    ensures d.Valid() && Reads(StateF(), old(d.Rest()), r, d.Rest())
  {
    ghost var f5 := Pair(ValidationF(), LifecycleF());
    ghost var f4 := Pair(U64F(), f5);
    ghost var f3 := Pair(NameF(), f4);
    ghost var f2 := Pair(DigestF(), f3);
    ghost var f1 := Pair(DigestF(), f2);
    GetFirst(DigestF(), f1, d.Rest());
    var v0 :- d.Digest();
    GetFirst(DigestF(), f2, d.Rest());
    var v1 :- d.Digest();
    GetFirst(DigestF(), f3, d.Rest());
    var v2 :- d.Digest();
    GetFirst(NameF(), f4, d.Rest());
    var v3 :- d.Str(MAX_NAME, MAX_NAME);
    GetFirst(U64F(), f5, d.Rest());
    var v4 :- d.U64();
    GetFirst(ValidationF(), LifecycleF(), d.Rest());
    var v5 :- d.Validation();
    var v6 :- d.Lifecycle();
    r := Returned((v0, (v1, (v2, (v3, (v4, (v5, v6)))))));
  }

  method ReadEnd(d: Decoder) returns (r: Outcome<End>)
    requires d.Valid()
    modifies d
    ensures d.Valid() && Reads(EndF(), old(d.Rest()), r, d.Rest())
  {
    ghost var f1 := Pair(NameF(), NameF());
    GetFirst(U64F(), f1, d.Rest());
    var v0 :- d.U64();
    GetFirst(NameF(), NameF(), d.Rest());
    var v1 :- d.Str(MAX_NAME, MAX_NAME);
    var v2 :- d.Str(MAX_NAME, MAX_NAME);
    r := Returned((v0, (v1, v2)));
  }

  method ReadDependency(d: Decoder) returns (r: Outcome<DependencyRef>)
    requires d.Valid()
    modifies d
    ensures d.Valid() && Reads(DependencyF(), old(d.Rest()), r, d.Rest())
  {
    var t :- ReadDependencyFields(d);
    r := DependencyOf(t);
  }

  method ReadPlacement(d: Decoder) returns (r: Outcome<Placement>)
    requires d.Valid()
    modifies d
    ensures d.Valid() && Reads(PlacementF(), old(d.Rest()), r, d.Rest())
  {
    var t :- ReadPlacementFields(d);
    r := PlacementOf(t);
  }

  method ReadDependencies(d: Decoder) returns (r: Outcome<seq<DependencyRef>>)
    requires d.Valid()
    modifies d
    ensures d.Valid() && Reads(ListF(DependencyF(), MAX_COUNT), old(d.Rest()), r, d.Rest())
  {
    hide DependencyF;
    hide ListF;
    ghost var c := DependencyF();
    ListReads(c, MAX_COUNT, d.Rest());
    var n :- d.U32();
    if n > MAX_COUNT { return Threw(TooLong); }
    ghost var s := d.Rest();
    var xs: seq<DependencyRef> := [];
    for i := 0 to n
      invariant d.Valid() && GetMany(DependencyF(), i, s) == Got(xs, d.Rest())
    {
      ManyStep(DependencyF(), i, n, s);
      var x :- ReadDependency(d);
      xs := xs + [x];
    }
    r := Returned(xs);
  }

  method ReadPlacements(d: Decoder) returns (r: Outcome<seq<Placement>>)
    requires d.Valid()
    modifies d
    ensures d.Valid() && Reads(ListF(PlacementF(), MAX_COUNT), old(d.Rest()), r, d.Rest())
  {
    hide PlacementF;
    hide ListF;
    ghost var c := PlacementF();
    ListReads(c, MAX_COUNT, d.Rest());
    var n :- d.U32();
    if n > MAX_COUNT { return Threw(TooLong); }
    ghost var s := d.Rest();
    var xs: seq<Placement> := [];
    for i := 0 to n
      invariant d.Valid() && GetMany(PlacementF(), i, s) == Got(xs, d.Rest())
    {
      ManyStep(PlacementF(), i, n, s);
      var x :- ReadPlacement(d);
      xs := xs + [x];
    }
    r := Returned(xs);
  }

  lemma ListReads<T(!new)>(c: Format<T>, max: nat, s: Bytes)
    ensures ListF(c, max).get(s) == GetList(c, max, s)
  {
  }

  /** An element that cannot be read stops the whole list. */
  lemma {:induction false} ManyStops<T(!new)>(c: Format<T>, i: nat, n: nat, s: Bytes)
    requires i <= n
    ensures GetMany(c, i, s).Bad? ==> GetMany(c, n, s) == Bad(GetMany(c, i, s).error)
    decreases n
  {
    if i < n { ManyStops(c, i, n - 1, s); }
  }

  /** One more element of a list of `n`. */
  lemma ManyStep<T(!new)>(c: Format<T>, i: nat, n: nat, s: Bytes)
    requires i < n && GetMany(c, i, s).Got?
    ensures match c.get(GetMany(c, i, s).rest)
            case Got(x, rest) => GetMany(c, i + 1, s) == Got(GetMany(c, i, s).value + [x], rest)
            case Bad(error) => GetMany(c, n, s) == Bad(error)
  {
    ManyStops(c, i + 1, n, s);
  }

  /** `read_descriptor` reads exactly the descriptor format. */
  method ReadDescriptor(d: Decoder) returns (r: Outcome<Descriptor>)
    requires d.Valid()
    modifies d
    ensures d.Valid() && Reads(DescriptorF(), old(d.Rest()), r, d.Rest())
  {
    hide HeadF, TargetF, TextF, StateF, EndF, ListF, DependencyF, PlacementF;
    ghost var deps, places := ListF(DependencyF(), MAX_COUNT), ListF(PlacementF(), MAX_COUNT);
    ghost var f5 := Pair(places, EndF());
    ghost var f4 := Pair(StateF(), f5);
    ghost var f3 := Pair(deps, f4);
    ghost var f2 := Pair(TextF(), f3);
    ghost var f1 := Pair(TargetF(), f2);
    GetFirst(HeadF(), f1, d.Rest());
    var head :- ReadHead(d);
    GetFirst(TargetF(), f2, d.Rest());
    var target :- ReadTarget(d);
    GetFirst(TextF(), f3, d.Rest());
    var text :- ReadText(d);
    GetFirst(deps, f4, d.Rest());
    var dependencies :- ReadDependencies(d);
    GetFirst(StateF(), f5, d.Rest());
    var state :- ReadState(d);
    GetFirst(places, EndF(), d.Rest());
    var placements :- ReadPlacements(d);
    var end :- ReadEnd(d);
    r := Assemble((head, (target, (text, (dependencies, (state, (placements, end)))))));
  }

  /** `decode_descriptor`. */
  method DecodeDescriptor(frame: Bytes) returns (r: Outcome<Descriptor>)
    ensures r == DescriptorFormat.DecodeDescriptor(frame)
  {
    var payload :- VerifyCrcFrame(frame);
    var d := new Decoder(payload);
    var out :- ReadDescriptor(d);
    var _ :- d.RequireEnd();
    r := Returned(out);
  }
}
