/** Content and reference counts over whole runs. */
module References {
  import opened Types
  import opened Lifecycle
  import opened GraphModel
  import opened DescriptorFormat
  import opened CatalogModel
  import opened CatalogEffects
  import opened CatalogRuns

  /** The artifacts that hold a reference to `cd`: those with that digest that are not retired. */
  function Holders(m: map<Id, Descriptor>, cd: Digest): set<Id> {
    set id | id in m && m[id].lifecycle != RETIRED && m[id].contentDigest == cd
  }

  /** `cd` is stored exactly while someone holds it, and its count is the number of holders. */
  ghost predicate CountedAt(m: map<Id, Descriptor>, store: map<Digest, Content>, cd: Digest) {
    && (cd in store <==> Holders(m, cd) != {})
    && (cd in store ==> store[cd].references == |Holders(m, cd)|)
  }

  ghost predicate Counted(s: State) {
    forall cd :: CountedAt(s.artifacts, s.store, cd)
  }

  /** `content_of`. */
  function ContentOf(s: State, id: Id): Option<Bytes> {
    if id in s.artifacts && s.artifacts[id].contentDigest in s.store
    then Some(s.store[s.artifacts[id].contentDigest].bytes) else None
  }

  // ---- reference counts -----------------------------------------------------------------

  lemma RelabelledHolders(m: map<Id, Descriptor>, n: map<Id, Descriptor>, cd: Digest)
    requires RelabelledAll(m, n)
    ensures Holders(n, cd) == Holders(m, cd)
  {
    forall id | id in m
      ensures n[id].contentDigest == m[id].contentDigest && (n[id].lifecycle == RETIRED <==> m[id].lifecycle == RETIRED)
    {
      assert RelabelledOne(m[id], n[id]);
    }
  }

  lemma HoldersGrow(m: map<Id, Descriptor>, d: Descriptor, cd: Digest)
    requires d.id !in m && d.lifecycle != RETIRED
    ensures Holders(m[d.id := d], cd) == Holders(m, cd) + if d.contentDigest == cd then {d.id} else {}
    ensures d.id !in Holders(m, cd)
  {
  }

  lemma HoldersShrink(m: map<Id, Descriptor>, id: Id, e: Descriptor, cd: Digest)
    requires id in m && m[id].lifecycle != RETIRED && e.lifecycle == RETIRED && e.contentDigest == m[id].contentDigest
    ensures Holders(m[id := e], cd) == Holders(m, cd) - {id}
    ensures id in Holders(m, cd) <==> m[id].contentDigest == cd
  {
  }

  lemma FewHolders(s: State, cd: Digest)
    requires Linked(s)
    ensures |Holders(s.artifacts, cd)| <= MAX_NODES
  {
    hide Direct;
    Collections.SubsetSize(Holders(s.artifacts, cd), s.graph.nodes);
  }

  lemma StoreOneMore(m: map<Id, Descriptor>, store: map<Digest, Content>, d: Descriptor, content: Bytes, cd: Digest)
    requires d.id !in m && d.lifecycle != RETIRED && CountedAt(m, store, cd) && |Holders(m, cd)| <= MAX_NODES
    ensures CountedAt(m[d.id := d], Stored(store, d.contentDigest, content), cd)
  {
    HoldersGrow(m, d, cd);
    hide Holders;
  }

  lemma StoreOneLess(m: map<Id, Descriptor>, store: map<Digest, Content>, id: Id, e: Descriptor, cd: Digest)
    requires id in m && m[id].lifecycle != RETIRED && e.lifecycle == RETIRED && e.contentDigest == m[id].contentDigest
    requires CountedAt(m, store, cd)
    ensures CountedAt(m[id := e], Released(store, e.contentDigest), cd)
  {
    HoldersShrink(m, id, e, cd);
    hide Holders;
  }

  lemma ReturnKeepsCounted(h: Bytes -> Digest, s: State, c: Call)
    requires WellFormed(s) && Linked(s) && Counted(s) && !c.Register? && Do(h, s, c).0.Returned?
    ensures Counted(Do(h, s, c).1)
  {
    hide WellFormed, Do, RelabelledAll, Linked, CountedAt, ToI64, Encodable, Link, Valid, Released, Stored;
    var t := Do(h, s, c).1;
    Effects(h, s, c);
    if Relabelled(s, t) {
      forall cd ensures CountedAt(t.artifacts, t.store, cd) {
        RelabelledCount(s.artifacts, t.artifacts, s.store, cd);
      }
    } else if c.Publish? {
      var d :| Published(h, s, t, c.request, d);
      forall cd ensures CountedAt(t.artifacts, t.store, cd) {
        FewHolders(s, cd);
        StoreOneMore(s.artifacts, s.store, d, c.request.content, cd);
      }
    } else {
      NotYetRetired(s.artifacts[c.id].lifecycle);
      forall cd ensures CountedAt(t.artifacts, t.store, cd) {
        StoreOneLess(s.artifacts, s.store, c.id, t.artifacts[c.id], cd);
      }
    }
  }

  lemma RelabelledCount(m: map<Id, Descriptor>, n: map<Id, Descriptor>, store: map<Digest, Content>, cd: Digest)
    requires RelabelledAll(m, n) && CountedAt(m, store, cd)
    ensures CountedAt(n, store, cd)
  {
    RelabelledHolders(m, n, cd);
  }

  lemma NotYetRetired(l: LifecycleState)
    requires CanTransition(l, RETIRED)
    ensures l != RETIRED
  {
  }

  lemma {:induction false} RunKeepsCounted(h: Bytes -> Digest, calls: seq<Call>)
    requires AllReturn(h, calls) && NoRegister(calls)
    ensures Counted(After(h, calls))
  {
    if calls != [] {
      hide Do, Linked, Counted;
      RunKeepsCounted(h, calls[..|calls| - 1]);
      RunKeepsLinked(h, calls[..|calls| - 1]);
      ReturnKeepsCounted(h, After(h, calls[..|calls| - 1]), calls[|calls| - 1]);
    } else {
      assert forall cd :: Holders(NEW_CATALOG.artifacts, cd) == {};
    }
  }

  /** Over any run of publications and lifecycle calls that returned: each digest's reference
      count is the number of artifacts with that digest that are not retired, and the content
      is stored exactly while that number is positive. */
  lemma RefcountsConserved(h: Bytes -> Digest, calls: seq<Call>, cd: Digest)
    requires AllReturn(h, calls) && NoRegister(calls)
    ensures var s := After(h, calls);
      var n := |set id | id in s.artifacts && s.artifacts[id].lifecycle != RETIRED && s.artifacts[id].contentDigest == cd|;
      && (cd in s.store <==> n > 0)
      && (cd in s.store ==> s.store[cd].references == n)
  {
    hide After, AllReturn, WellFormed;
    RunKeepsCounted(h, calls);
    var s := After(h, calls);
    assert Holders(s.artifacts, cd)
        == set id | id in s.artifacts && s.artifacts[id].lifecycle != RETIRED && s.artifacts[id].contentDigest == cd;
    assert CountedAt(After(h, calls).artifacts, After(h, calls).store, cd);
  }

  // ---- contents -------------------------------------------------------------------------

  /** The contents published in a run. */
  function Contents(calls: seq<Call>): set<Bytes> {
    set i | 0 <= i < |calls| && calls[i].Publish? :: calls[i].request.content
  }

  /** No two of the given contents have the same digest. */
  ghost predicate CollisionFree(h: Bytes -> Digest, contents: set<Bytes>) {
    forall x, y :: x in contents && y in contents && h(x) == h(y) ==> x == y
  }

  /** Every stored content was published, and is stored under its digest. */
  ghost predicate Genuine(h: Bytes -> Digest, store: map<Digest, Content>, contents: set<Bytes>) {
    forall cd :: cd in store ==> store[cd].bytes in contents && h(store[cd].bytes) == cd
  }

  lemma StoredGenuine(h: Bytes -> Digest, store: map<Digest, Content>, contents: set<Bytes>, content: Bytes)
    requires Genuine(h, store, contents) && content in contents
    ensures Genuine(h, Stored(store, h(content), content), contents)
  {
  }

  lemma ReleasedGenuine(h: Bytes -> Digest, store: map<Digest, Content>, contents: set<Bytes>, cd: Digest)
    requires Genuine(h, store, contents)
    ensures Genuine(h, Released(store, cd), contents)
  {
  }

  lemma ReturnKeepsGenuine(h: Bytes -> Digest, s: State, c: Call, contents: set<Bytes>)
    requires WellFormed(s) && !c.Register? && Do(h, s, c).0.Returned? && Genuine(h, s.store, contents)
    requires c.Publish? ==> c.request.content in contents
    ensures Genuine(h, Do(h, s, c).1.store, contents)
  {
    hide WellFormed, Do, RelabelledAll, Genuine, ToI64, Encodable, Link, Valid, Released, Stored;
    var t := Do(h, s, c).1;
    Effects(h, s, c);
    if c.Publish? && !Relabelled(s, t) {
      StoredGenuine(h, s.store, contents, c.request.content);
    } else if c.Retire? && !Relabelled(s, t) {
      ReleasedGenuine(h, s.store, contents, s.artifacts[c.id].contentDigest);
    }
  }

  lemma {:induction false} RunKeepsGenuine(h: Bytes -> Digest, calls: seq<Call>, contents: set<Bytes>)
    requires AllReturn(h, calls) && NoRegister(calls) && Contents(calls) <= contents
    ensures Genuine(h, After(h, calls).store, contents)
  {
    if calls != [] {
      hide Do, Genuine;
      var init, c := calls[..|calls| - 1], calls[|calls| - 1];
      assert c.Publish? ==> c.request.content in Contents(calls);
      assert Contents(init) <= Contents(calls);
      RunKeepsGenuine(h, init, contents);
      ReturnKeepsGenuine(h, After(h, init), c, contents);
    }
  }

  lemma ReturnKeepsDigest(h: Bytes -> Digest, s: State, c: Call, id: Id)
    requires WellFormed(s) && !c.Register? && Do(h, s, c).0.Returned? && id in s.artifacts
    ensures id in Do(h, s, c).1.artifacts
    ensures SameArtifact(s.artifacts[id], Do(h, s, c).1.artifacts[id])
  {
    hide WellFormed, Do, SameArtifact, Relabelled, Published, RetiredOne;
    var t := Do(h, s, c).1;
    Effects(h, s, c);
    if Relabelled(s, t) {
      RelabelledSame(s, t);
    } else if c.Publish? {
      var d :| Published(h, s, t, c.request, d);
      PublishedOther(h, s, t, c.request, d, id);
    } else {
      RetiredSame(s, t, c.id);
    }
  }

  lemma PublishedOther(h: Bytes -> Digest, s: State, t: State, req: PublishRequest, d: Descriptor, id: Id)
    requires Published(h, s, t, req, d) && id in s.artifacts
    ensures id in t.artifacts && SameArtifact(s.artifacts[id], t.artifacts[id])
  {
    hide ToI64, Encodable, Link, Valid, Stored;
  }

  lemma SameArtifactDigest(d: Descriptor, e: Descriptor)
    requires SameArtifact(d, e)
    ensures e.contentDigest == d.contentDigest && e.dependencies == d.dependencies && e.sizeBytes == d.sizeBytes
  {
  }

  /** The artifact that `calls[i]` published still has the digest of what it published. */
  lemma {:induction false} DigestPersists(h: Bytes -> Digest, calls: seq<Call>, i: nat, id: Id)
    requires AllReturn(h, calls) && NoRegister(calls) && i < |calls| && calls[i].Publish?
    requires id !in After(h, calls[..i]).artifacts && id in After(h, calls[..i + 1]).artifacts
    ensures id in After(h, calls).artifacts
    ensures After(h, calls).artifacts[id].contentDigest == h(calls[i].request.content)
  {
    hide Do, SameArtifact, WellFormed;
    var init, c := calls[..|calls| - 1], calls[|calls| - 1];
    if i == |calls| - 1 {
      assert calls[..i + 1] == calls;
      PublishedDigest(h, After(h, init), c, id);
    } else {
      assert init[..i] == calls[..i] && init[..i + 1] == calls[..i + 1];
      DigestPersists(h, init, i, id);
      ReturnKeepsDigest(h, After(h, init), c, id);
      SameArtifactDigest(After(h, init).artifacts[id], After(h, calls).artifacts[id]);
    }
  }

  lemma PublishedDigest(h: Bytes -> Digest, s: State, c: Call, id: Id)
    requires WellFormed(s) && c.Publish? && Do(h, s, c).0.Returned?
    requires id !in s.artifacts && id in Do(h, s, c).1.artifacts
    ensures Do(h, s, c).1.artifacts[id].contentDigest == h(c.request.content)
  {
    hide WellFormed, Do, SameArtifact, ToI64, Encodable, Link, Valid, Stored;
    Effects(h, s, c);
  }

  /** As long as an artifact is not retired, `content_of` returns the bytes it was published
      with. */
  lemma ContentPreserved(h: Bytes -> Digest, calls: seq<Call>, i: nat, id: Id)
    requires AllReturn(h, calls) && NoRegister(calls) && CollisionFree(h, Contents(calls))
    requires i < |calls| && calls[i].Publish?
    requires id !in After(h, calls[..i]).artifacts && id in After(h, calls[..i + 1]).artifacts
    ensures id in After(h, calls).artifacts
    ensures After(h, calls).artifacts[id].lifecycle != RETIRED ==>
              ContentOf(After(h, calls), id) == Some(calls[i].request.content)
  {
    hide After, AllReturn, WellFormed;
    var s := After(h, calls);
    DigestPersists(h, calls, i, id);
    RunKeepsGenuine(h, calls, Contents(calls));
    RunKeepsCounted(h, calls);
    if s.artifacts[id].lifecycle != RETIRED {
      var cd := s.artifacts[id].contentDigest;
      assert CountedAt(s.artifacts, s.store, cd) && id in Holders(s.artifacts, cd);
      assert calls[i].request.content in Contents(calls);
    }
  }
}
