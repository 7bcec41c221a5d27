/** The catalog image: what `save` writes, and what `load` makes of it. */
module CatalogImage {
  import opened Types
  import opened Sorting
  import opened Accounting
  import opened Codec
  import opened CrcFrames
  import opened DescriptorFormat
  import opened GraphModel
  import opened CatalogModel
  import opened Ledger

  const IMAGE_SCHEMA: U32 := 2

  type StoredContent = (Digest, (U64, Bytes))
  type SuccessorList = (Id, seq<Id>)
  type Image = ((), ((), (U64, (Id, (U64, (seq<Descriptor>, (seq<StoredContent>, seq<SuccessorList>)))))))

  function ContentF(): Format<StoredContent> {
    Pair(DigestF(), Pair(U64F(), BytesF(MAX_FIELD, MAX_FIELD)))
  }

  function SuccessorF(): Format<SuccessorList> {
    Pair(IdF(), ListF(IdF(), MAX_U32))
  }

  function ImageF(): Format<Image> {
    Pair(MarkF(IMAGE_MAGIC, BadMagic), Pair(MarkF(IMAGE_SCHEMA, BadSchema), Pair(U64F(), Pair(IdF(), Pair(U64F(),
      Pair(ListF(DescriptorF(), MAX_U32), Pair(ListF(ContentF(), MAX_U32), ListF(SuccessorF(), MAX_U32))))))))
  }

  lemma ContentLaw()
    ensures Lawful(ContentF())
  {
    DigestLaw();
    U64Law();
    BytesLaw(MAX_FIELD, MAX_FIELD);
    PairLaw(U64F(), BytesF(MAX_FIELD, MAX_FIELD));
    PairLaw(DigestF(), Pair(U64F(), BytesF(MAX_FIELD, MAX_FIELD)));
  }

  lemma SuccessorLaw()
    ensures Lawful(SuccessorF())
  {
    IdLaw();
    ListLaw(IdF(), MAX_U32);
    PairLaw(IdF(), ListF(IdF(), MAX_U32));
  }

  lemma ImageLaw()
    ensures Lawful(ImageF())
  {
    hide DescriptorF, ContentF, SuccessorF;
    IdLaw();
    U64Law();
    MarkLaw(IMAGE_MAGIC, BadMagic);
    MarkLaw(IMAGE_SCHEMA, BadSchema);
    DescriptorLaw();
    ContentLaw();
    SuccessorLaw();
    var ds, cs, ss := ListF(DescriptorF(), MAX_U32), ListF(ContentF(), MAX_U32), ListF(SuccessorF(), MAX_U32);
    ListLaw(DescriptorF(), MAX_U32);
    ListLaw(ContentF(), MAX_U32);
    ListLaw(SuccessorF(), MAX_U32);
    hide Lawful, Pair, ListF, MarkF, U64F, IdF;
    PairLaw(cs, ss);
    var f1 := Pair(cs, ss);
    PairLaw(ds, f1);
    var f2 := Pair(ds, f1);
    PairLaw(U64F(), f2);
    var f3 := Pair(U64F(), f2);
    PairLaw(IdF(), f3);
    var f4 := Pair(IdF(), f3);
    PairLaw(U64F(), f4);
    var f5 := Pair(U64F(), f4);
    PairLaw(MarkF(IMAGE_SCHEMA, BadSchema), f5);
    PairLaw(MarkF(IMAGE_MAGIC, BadMagic), Pair(MarkF(IMAGE_SCHEMA, BadSchema), f5));
  }

  // ---- save -----------------------------------------------------------------------------

  function DescriptorsAt(m: map<Id, Descriptor>, ids: seq<Id>): (r: seq<Descriptor>)
    requires forall i :: 0 <= i < |ids| ==> ids[i] in m
    ensures |r| == |ids| && forall i :: 0 <= i < |ids| ==> r[i] == m[ids[i]]
  {
    seq(|ids|, i requires 0 <= i < |ids| => m[ids[i]])
  }

  function ContentsAt(m: map<Digest, Content>, cds: seq<Digest>): (r: seq<StoredContent>)
    requires forall i :: 0 <= i < |cds| ==> cds[i] in m
    ensures |r| == |cds| && forall i :: 0 <= i < |cds| ==> r[i] == (cds[i], (m[cds[i]].references, m[cds[i]].bytes))
  {
    seq(|cds|, i requires 0 <= i < |cds| => (cds[i], (m[cds[i]].references, m[cds[i]].bytes)))
  }

  function SuccessorsAt(m: map<Id, seq<Id>>, ids: seq<Id>): (r: seq<SuccessorList>)
    requires forall i :: 0 <= i < |ids| ==> ids[i] in m
    ensures |r| == |ids| && forall i :: 0 <= i < |ids| ==> r[i] == (ids[i], m[ids[i]])
  {
    seq(|ids|, i requires 0 <= i < |ids| => (ids[i], m[ids[i]]))
  }

  ghost function SavedDescriptors(s: State): seq<Descriptor> {
    var ids := SortedIds(s.artifacts.Keys);
    assert forall i :: 0 <= i < |ids| ==> ids[i] in ids;
    DescriptorsAt(s.artifacts, ids)
  }

  ghost function SavedContents(s: State): seq<StoredContent> {
    var cds := SortedDigests(s.store.Keys);
    assert forall i :: 0 <= i < |cds| ==> cds[i] in cds;
    ContentsAt(s.store, cds)
  }

  ghost function SavedSuccessors(s: State): seq<SuccessorList> {
    var ids := SortedIds(s.successors.Keys);
    assert forall i :: 0 <= i < |ids| ==> ids[i] in ids;
    SuccessorsAt(s.successors, ids)
  }

  ghost function ImageOf(s: State): Image {
    ((), ((), (s.epoch, (s.boot, (s.nextGeneration, (SavedDescriptors(s), (SavedContents(s), SavedSuccessors(s))))))))
  }

  /** The encoder throws on a descriptor or a content beyond its limits. */
  ghost predicate Savable(s: State) {
    && (forall id :: id in s.artifacts ==> Encodable(s.artifacts[id]))
    && (forall cd :: cd in s.store ==> |s.store[cd].bytes| <= MAX_FIELD)
  }

  ghost function Save(s: State): Outcome<Bytes> {
    if Savable(s) then Returned(Seal(ImageF().put(ImageOf(s)))) else Threw(EncodeLimit)
  }

  // ---- load -----------------------------------------------------------------------------

  /** Everything the image replaces is emptied before the image is put back. */
  function Cleared(s: State): State {
    s.(artifacts := map[], graph := EMPTY, indexed := {}, store := map[], successors := map[], predecessors := map[],
       quarantines := map[], causes := map[])
  }

  ghost function Restore(s: State, ds: seq<Descriptor>): (r: Step)
    requires WellFormed(s) && s.indexed == {}
    ensures WellFormed(r.1) && r.1 == s.(artifacts := r.1.artifacts, graph := r.1.graph)
    decreases |ds|
  {
    if ds == [] then (Returned(()), s)
    else if ds[0].id in s.artifacts then (Threw(DuplicateId), s)
    else
      var d := ds[0];
      var (linked, g) := Link(s.graph, d.id, d.dependencies);
      var s1 := s.(artifacts := s.artifacts[d.id := d], graph := g);
      if linked.Threw? then (linked, s1) else Restore(s1, ds[1..])
  }

  function StoreOf(cs: seq<StoredContent>): map<Digest, Content> {
    if cs == [] then map[]
    else
      var c := cs[|cs| - 1];
      StoreOf(cs[..|cs| - 1])[c.0 := Content(c.1.1, c.1.0)]
  }

  function SuccessorsOf(ss: seq<SuccessorList>): map<Id, seq<Id>> {
    if ss == [] then map[] else SuccessorsOf(ss[..|ss| - 1])[ss[|ss| - 1].0 := ss[|ss| - 1].1]
  }

  function PushAll(m: map<Id, seq<Id>>, k: Id, vs: seq<Id>): map<Id, seq<Id>> {
    if vs == [] then m else Push(PushAll(m, k, vs[..|vs| - 1]), vs[|vs| - 1], k)
  }

  /** The reverse relation, key by key. */
  function Reversed(succ: map<Id, seq<Id>>, keys: seq<Id>): map<Id, seq<Id>>
    requires forall i :: 0 <= i < |keys| ==> keys[i] in succ
  {
    if keys == [] then map[]
    else
      var k := keys[|keys| - 1];
      PushAll(Reversed(succ, keys[..|keys| - 1]), k, succ[k])
  }

  ghost function Predecessors(succ: map<Id, seq<Id>>): map<Id, seq<Id>> {
    var keys := SortedIds(succ.Keys);
    assert forall i :: 0 <= i < |keys| ==> keys[i] in keys;
    Reversed(succ, keys)
  }

  function SignedSizes(m: map<Id, Descriptor>): map<Id, int> {
    map id | id in m :: ToI64(m[id].sizeBytes)
  }

  function TallyOne(c: Counters, x: Content): (Outcome<()>, Counters) {
    var e := c.(physicalBacking := c.physicalBacking + 1, physicalBytes := c.physicalBytes + |x.bytes|);
    if e.activeReferences + ToI64(x.references) < 0 then (Threw(NegativeCounter), e)
    else (Returned(()), e.(activeReferences := e.activeReferences + ToI64(x.references)))
  }

  /** The stored contents are counted one by one. */
  function Tally(c: Counters, store: map<Digest, Content>, cds: seq<Digest>): (Outcome<()>, Counters)
    requires forall i :: 0 <= i < |cds| ==> cds[i] in store
  {
    if cds == [] then (Returned(()), c)
    else
      var (counted, b) := Tally(c, store, cds[..|cds| - 1]);
      if counted.Threw? then (counted, b) else TallyOne(b, store[cds[|cds| - 1]])
  }

  ghost function Recount(m: map<Id, Descriptor>, store: map<Digest, Content>): (Outcome<()>, Counters) {
    var c := NO_COUNTS.(logicalArtifacts := |m|);
    var bytes := Total(SignedSizes(m));
    if bytes < 0 then (Threw(NegativeCounter), c)
    else
      var cds := SortedDigests(store.Keys);
      assert forall i :: 0 <= i < |cds| ==> cds[i] in cds;
      var (counted, e) := Tally(c.(logicalBytes := bytes), store, cds);
      if counted.Threw? then (counted, e)
      else
        (Returned(()), e.(dedupBytes := if bytes - e.physicalBytes > 0 then bytes - e.physicalBytes else 0))
  }

  ghost function Finish(s: State, epoch: U64, boot: Id, next: U64, cs: seq<StoredContent>, ss: seq<SuccessorList>): Step {
    var store, succ := StoreOf(cs), SuccessorsOf(ss);
    var (counted, c) := Recount(s.artifacts, store);
    (counted, s.(epoch := epoch, boot := boot, nextGeneration := next, store := store, successors := succ,
                 predecessors := Predecessors(succ), indexed := s.artifacts.Keys, counters := c))
  }

  lemma ClearedWellFormed(s: State)
    ensures WellFormed(Cleared(s))
  {
    assert Valid(Built([]));
  }

  lemma FinishWellFormed(s: State, epoch: U64, boot: Id, next: U64, cs: seq<StoredContent>, ss: seq<SuccessorList>)
    requires WellFormed(s)
    ensures WellFormed(Finish(s, epoch, boot, next, cs, ss).1)
  {
    hide Valid, Recount, StoreOf, SuccessorsOf, Predecessors;
  }

  /** `load` into any catalog. A malformed image changes nothing; an image whose descriptors
      cannot be restored leaves those restored so far. */
  ghost function Load(s: State, image: Bytes): (r: Step)
    requires WellFormed(s)
    ensures WellFormed(r.1)
  {
    match Decode(ImageF(), image)
    case Threw(e) => (Threw(e), s)
    case Returned(v) =>
      var (_, (_, (epoch, (boot, (next, (ds, (cs, ss))))))) := v;
      ClearedWellFormed(s);
      var (restored, t) := Restore(Cleared(s), ds);
      if restored.Threw? then (restored, t)
      else
        FinishWellFormed(t, epoch, boot, next, cs, ss);
        Finish(t, epoch, boot, next, cs, ss)
  }
}
