/** The counters against their definitions, over whole runs. */
module Ledger {
  import opened Types
  import opened Lifecycle
  import opened Accounting
  import opened CatalogModel
  import opened CatalogEffects
  import opened CatalogRuns
  import opened References

  // ---- sums over maps -------------------------------------------------------------------

  ghost function Total<K(!new)>(m: map<K, int>): int
    decreases |m|
  {
    if m == map[] then 0
    else
      var k :| k in m;
      assert |m - {k}| < |m|;
      m[k] + Total(m - {k})
  }

  lemma {:induction false} TotalRemove<K(!new)>(m: map<K, int>, k: K)
    requires k in m
    ensures Total(m) == m[k] + Total(m - {k})
    decreases |m|
  {
    var j :| j in m && Total(m) == m[j] + Total(m - {j});
    if j != k {
      TotalRemove(m - {j}, k);
      TotalRemove(m - {k}, j);
      assert m - {j} - {k} == m - {k} - {j};
    }
  }

  lemma TotalAdd<K(!new)>(m: map<K, int>, k: K, v: int)
    requires k !in m
    ensures Total(m[k := v]) == Total(m) + v
  {
    TotalRemove(m[k := v], k);
    assert m[k := v] - {k} == m;
  }

  lemma TotalReplace<K(!new)>(m: map<K, int>, k: K, v: int)
    requires k in m
    ensures Total(m[k := v]) == Total(m) + v - m[k]
  {
    TotalRemove(m, k);
    TotalRemove(m[k := v], k);
    assert m[k := v] - {k} == m - {k};
  }

  lemma {:induction false} TotalNonNegative<K(!new)>(m: map<K, int>)
    requires forall k :: k in m ==> m[k] >= 0
    ensures Total(m) >= 0
    decreases |m|
  {
    if m != map[] {
      var k :| k in m;
      TotalRemove(m, k);
      TotalNonNegative(m - {k});
    }
  }

  lemma TotalCovers<K(!new)>(m: map<K, int>, k: K)
    requires k in m && forall j :: j in m ==> m[j] >= 0
    ensures m[k] <= Total(m)
  {
    TotalRemove(m, k);
    TotalNonNegative(m - {k});
  }

  // ---- what the counters should be ------------------------------------------------------

  /** The declared sizes of the artifacts that are not retired. */
  function Sizes(m: map<Id, Descriptor>): map<Id, int> {
    map id | id in m && m[id].lifecycle != RETIRED :: m[id].sizeBytes
  }

  function Lengths(store: map<Digest, Content>): map<Digest, int> {
    map cd | cd in store :: |store[cd].bytes|
  }

  function Counts(store: map<Digest, Content>): map<Digest, int> {
    map cd | cd in store :: store[cd].references
  }

  /** What is saved by storing each content once. */
  function Savings(store: map<Digest, Content>): map<Digest, int> {
    map cd | cd in store :: (store[cd].references - 1) * |store[cd].bytes|
  }

  /** `accounting()`. */
  function Snapshot(s: State): Counters {
    s.counters.(dedupBytes := s.counters.logicalBytes - s.counters.physicalBytes)
  }

  ghost predicate SizesMatch(m: map<Id, Descriptor>, store: map<Digest, Content>) {
    forall id :: id in m && m[id].lifecycle != RETIRED && m[id].contentDigest in store ==>
      m[id].sizeBytes == |store[m[id].contentDigest].bytes| && m[id].sizeBytes < 0x8000_0000_0000_0000
  }

  ghost predicate Agrees(c: Counters, sizes: map<Id, int>, lengths: map<Digest, int>, savings: map<Digest, int>,
                         refs: map<Digest, int>) {
    && c.logicalArtifacts == |sizes| && c.activeReferences == |sizes| && c.logicalBytes == Total(sizes)
    && c.physicalBacking == |lengths| && c.physicalBytes == Total(lengths)
    && Total(sizes) - Total(lengths) == Total(savings) && Total(refs) == |sizes|
    && c.buildReservations == 0 && c.temporaryBytes == 0 && c.evictions == 0
  }

  ghost predicate Balanced(s: State) {
    SizesMatch(s.artifacts, s.store) && Agrees(s.counters, Sizes(s.artifacts), Lengths(s.store), Savings(s.store), Counts(s.store))
  }

  /** The request declares the size of its content, which fits a signed 64-bit counter as the
      length of any vector does. */
  predicate Sized(c: Call) {
    c.Publish? ==> c.request.descriptor.sizeBytes == |c.request.content| < 0x8000_0000_0000_0000
  }

  // ---- one call -------------------------------------------------------------------------

  lemma RelabelledSizes(m: map<Id, Descriptor>, n: map<Id, Descriptor>, store: map<Digest, Content>)
    requires RelabelledAll(m, n)
    ensures Sizes(n) == Sizes(m)
    ensures SizesMatch(m, store) ==> SizesMatch(n, store)
  {
    forall id | id in m ensures
      n[id].sizeBytes == m[id].sizeBytes && n[id].contentDigest == m[id].contentDigest
      && (n[id].lifecycle == RETIRED <==> m[id].lifecycle == RETIRED)
    {
      assert RelabelledOne(m[id], n[id]);
    }
    hide RelabelledOne;
  }

  lemma AddedSizes(m: map<Id, Descriptor>, d: Descriptor)
    requires d.id !in m && d.lifecycle != RETIRED
    ensures d.id !in Sizes(m) && Sizes(m[d.id := d]) == Sizes(m)[d.id := d.sizeBytes]
  {
  }

  lemma AddedMatch(m: map<Id, Descriptor>, store: map<Digest, Content>, d: Descriptor, content: Bytes)
    requires d.id !in m && SizesMatch(m, store) && d.sizeBytes == |content| < 0x8000_0000_0000_0000
    requires d.contentDigest in store ==> store[d.contentDigest].bytes == content
    requires forall id :: id in m && m[id].lifecycle != RETIRED ==> m[id].contentDigest in store
    ensures SizesMatch(m[d.id := d], Stored(store, d.contentDigest, content))
  {
    var n, kept := m[d.id := d], Stored(store, d.contentDigest, content);
    forall id | id in n && n[id].lifecycle != RETIRED && n[id].contentDigest in kept
      ensures n[id].sizeBytes == |kept[n[id].contentDigest].bytes| && n[id].sizeBytes < 0x8000_0000_0000_0000
    {
      if id != d.id { assert n[id] == m[id] && m[id].contentDigest in store; }
    }
  }

  lemma NewContent(store: map<Digest, Content>, cd: Digest, content: Bytes)
    requires cd !in store
    ensures cd !in Lengths(store) && Lengths(Stored(store, cd, content)) == Lengths(store)[cd := |content|]
    ensures cd !in Savings(store) && Savings(Stored(store, cd, content)) == Savings(store)[cd := 0]
    ensures cd !in Counts(store) && Counts(Stored(store, cd, content)) == Counts(store)[cd := 1]
  {
  }

  lemma SameContentAgain(store: map<Digest, Content>, cd: Digest, content: Bytes)
    requires cd in store && store[cd].references < U64_MAX
    ensures Lengths(Stored(store, cd, content)) == Lengths(store)
    ensures cd in Savings(store)
    ensures Savings(Stored(store, cd, content)) == Savings(store)[cd := Savings(store)[cd] + |store[cd].bytes|]
    ensures cd in Counts(store)
    ensures Counts(Stored(store, cd, content)) == Counts(store)[cd := Counts(store)[cd] + 1]
  {
    var n, len := store[cd].references, |store[cd].bytes|;
    assert Up(n) == n + 1;
    Times(n, len);
  }

  lemma Times(n: int, len: int)
    ensures (n + 1 - 1) * len == (n - 1) * len + len
  {
  }

  lemma AgreesAfterNew(c: Counters, sizes: map<Id, int>, lengths: map<Digest, int>, savings: map<Digest, int>,
                       refs: map<Digest, int>, id: Id, size: int, cd: Digest)
    requires Agrees(c, sizes, lengths, savings, refs) && id !in sizes && cd !in lengths && cd !in savings && cd !in refs
    ensures Agrees(
      c.(logicalArtifacts := c.logicalArtifacts + 1, logicalBytes := c.logicalBytes + size,
         activeReferences := c.activeReferences + 1, physicalBacking := c.physicalBacking + 1,
         physicalBytes := c.physicalBytes + size),
      sizes[id := size], lengths[cd := size], savings[cd := 0], refs[cd := 1])
  {
    hide Total;
    TotalAdd(sizes, id, size);
    TotalAdd(lengths, cd, size);
    TotalAdd(savings, cd, 0);
    TotalAdd(refs, cd, 1);
  }

  lemma AgreesAfterShared(c: Counters, sizes: map<Id, int>, lengths: map<Digest, int>, savings: map<Digest, int>,
                          refs: map<Digest, int>, id: Id, size: int, cd: Digest)
    requires Agrees(c, sizes, lengths, savings, refs) && id !in sizes && cd in savings && cd in refs
    ensures Agrees(
      c.(logicalArtifacts := c.logicalArtifacts + 1, logicalBytes := c.logicalBytes + size,
         activeReferences := c.activeReferences + 1),
      sizes[id := size], lengths, savings[cd := savings[cd] + size], refs[cd := refs[cd] + 1])
  {
    hide Total;
    TotalAdd(sizes, id, size);
    TotalReplace(savings, cd, savings[cd] + size);
    TotalReplace(refs, cd, refs[cd] + 1);
  }

  /** A publication keeps the books balanced. */
  lemma AgreesAfterPublish(c: Counters, sizes: map<Id, int>, store: map<Digest, Content>, id: Id, size: int,
                           cd: Digest, content: Bytes)
    requires Agrees(c, sizes, Lengths(store), Savings(store), Counts(store)) && id !in sizes && size == |content|
    requires cd in store ==> store[cd].references < U64_MAX && store[cd].bytes == content
    ensures Agrees(
      c.(logicalArtifacts := c.logicalArtifacts + 1, logicalBytes := c.logicalBytes + size,
         activeReferences := c.activeReferences + 1,
         physicalBacking := c.physicalBacking + (if cd in store then 0 else 1),
         physicalBytes := c.physicalBytes + (if cd in store then 0 else size)),
      sizes[id := size], Lengths(Stored(store, cd, content)), Savings(Stored(store, cd, content)),
      Counts(Stored(store, cd, content)))
  {
    hide Stored, Lengths, Savings, Counts, Agrees;
    if cd in store {
      SameContentAgain(store, cd, content);
      AgreesAfterShared(c, sizes, Lengths(store), Savings(store), Counts(store), id, size, cd);
    } else {
      NewContent(store, cd, content);
      AgreesAfterNew(c, sizes, Lengths(store), Savings(store), Counts(store), id, size, cd);
    }
  }

  lemma RetiredSizes(m: map<Id, Descriptor>, id: Id, e: Descriptor)
    requires id in m && m[id].lifecycle != RETIRED && e.lifecycle == RETIRED
    ensures id in Sizes(m) && Sizes(m)[id] == m[id].sizeBytes && Sizes(m[id := e]) == Sizes(m) - {id}
  {
  }

  lemma RetiredMatch(m: map<Id, Descriptor>, store: map<Digest, Content>, id: Id, e: Descriptor)
    requires id in m && SizesMatch(m, store) && e.lifecycle == RETIRED
    ensures SizesMatch(m[id := e], Released(store, m[id].contentDigest))
  {
    var n, left := m[id := e], Released(store, m[id].contentDigest);
    forall x | x in n && n[x].lifecycle != RETIRED && n[x].contentDigest in left
      ensures n[x].sizeBytes == |left[n[x].contentDigest].bytes| && n[x].sizeBytes < 0x8000_0000_0000_0000
    {
      assert x != id && n[x] == m[x] && m[x].contentDigest in store;
    }
  }

  lemma LastContent(store: map<Digest, Content>, cd: Digest)
    requires cd in store && store[cd].references == 1
    ensures cd in Lengths(store) && Lengths(store)[cd] == |store[cd].bytes|
    ensures Lengths(Released(store, cd)) == Lengths(store) - {cd}
    ensures cd in Savings(store) && Savings(store)[cd] == 0 && Savings(Released(store, cd)) == Savings(store) - {cd}
    ensures cd in Counts(store) && Counts(store)[cd] == 1
    ensures Counts(Released(store, cd)) == Counts(store) - {cd}
  {
  }

  lemma OneLess(store: map<Digest, Content>, cd: Digest)
    requires cd in store && store[cd].references > 1
    ensures Lengths(Released(store, cd)) == Lengths(store)
    ensures cd in Savings(store)
    ensures Savings(Released(store, cd)) == Savings(store)[cd := Savings(store)[cd] - |store[cd].bytes|]
    ensures cd in Counts(store)
    ensures Counts(Released(store, cd)) == Counts(store)[cd := Counts(store)[cd] - 1]
  {
    var n, len := store[cd].references, |store[cd].bytes|;
    assert Down(n) == n - 1;
    Times(n - 1, len);
  }

  lemma AgreesAfterLast(c: Counters, sizes: map<Id, int>, lengths: map<Digest, int>, savings: map<Digest, int>,
                        refs: map<Digest, int>, id: Id, size: int, cd: Digest)
    requires Agrees(c, sizes, lengths, savings, refs) && id in sizes && sizes[id] == size
    requires cd in lengths && lengths[cd] == size && cd in savings && savings[cd] == 0 && cd in refs && refs[cd] == 1
    ensures Agrees(
      c.(logicalArtifacts := c.logicalArtifacts - 1, logicalBytes := c.logicalBytes - size,
         activeReferences := c.activeReferences - 1, physicalBacking := c.physicalBacking - 1,
         physicalBytes := c.physicalBytes - size),
      sizes - {id}, lengths - {cd}, savings - {cd}, refs - {cd})
  {
    hide Total;
    TotalRemove(sizes, id);
    TotalRemove(lengths, cd);
    TotalRemove(savings, cd);
    TotalRemove(refs, cd);
  }

  lemma AgreesAfterOneLess(c: Counters, sizes: map<Id, int>, lengths: map<Digest, int>, savings: map<Digest, int>,
                           refs: map<Digest, int>, id: Id, size: int, cd: Digest, v: int)
    requires Agrees(c, sizes, lengths, savings, refs) && id in sizes && sizes[id] == size
    requires cd in savings && v == savings[cd] - size && cd in refs
    ensures Agrees(
      c.(logicalArtifacts := c.logicalArtifacts - 1, logicalBytes := c.logicalBytes - size,
         activeReferences := c.activeReferences - 1),
      sizes - {id}, lengths, savings[cd := v], refs[cd := refs[cd] - 1])
  {
    hide Total;
    TotalRemove(sizes, id);
    TotalReplace(savings, cd, v);
    TotalReplace(refs, cd, refs[cd] - 1);
  }

  /** A retirement keeps the books balanced. */
  lemma AgreesAfterRetire(c: Counters, sizes: map<Id, int>, store: map<Digest, Content>, id: Id, size: int, cd: Digest)
    requires Agrees(c, sizes, Lengths(store), Savings(store), Counts(store)) && id in sizes && sizes[id] == size
    requires cd in store && store[cd].references >= 1 && size == |store[cd].bytes|
    ensures var last := Down(store[cd].references) == 0;
      Agrees(
        c.(logicalArtifacts := c.logicalArtifacts - 1, logicalBytes := c.logicalBytes - size,
           activeReferences := c.activeReferences - 1,
           physicalBacking := c.physicalBacking - (if last then 1 else 0),
           physicalBytes := c.physicalBytes - (if last then size else 0)),
        sizes - {id}, Lengths(Released(store, cd)), Savings(Released(store, cd)),
        Counts(Released(store, cd)))
  {
    hide Released, Lengths, Savings, Counts, Agrees;
    if store[cd].references == 1 {
      LastContent(store, cd);
      AgreesAfterLast(c, sizes, Lengths(store), Savings(store), Counts(store), id, size, cd);
    } else {
      OneLess(store, cd);
      AgreesAfterOneLess(c, sizes, Lengths(store), Savings(store), Counts(store), id, size, cd, Savings(store)[cd] - size);
    }
  }

  lemma ReturnKeepsBalanced(h: Bytes -> Digest, s: State, c: Call, contents: set<Bytes>)
    requires WellFormed(s) && Linked(s) && Counted(s) && Balanced(s)
    requires Genuine(h, s.store, contents) && CollisionFree(h, contents)
    requires c.Publish? ==> c.request.content in contents
    requires !c.Register? && Sized(c) && Do(h, s, c).0.Returned?
    ensures Balanced(Do(h, s, c).1)
  {
    hide WellFormed, Do, RelabelledAll, Linked, Relabelled, Published, RetiredOne, Balanced;
    var t := Do(h, s, c).1;
    Effects(h, s, c);
    if Relabelled(s, t) {
      RelabelledBalanced(s, t);
    } else if c.Publish? {
      var d :| Published(h, s, t, c.request, d);
      PublishedSize(h, s, t, c.request, d);
      PublishedBalanced(h, s, t, c.request, d, contents);
    } else {
      RetiredBalanced(s, t, c.id);
    }
  }

  lemma RelabelledBalanced(s: State, t: State)
    requires Balanced(s) && Relabelled(s, t)
    ensures Balanced(t)
  {
    hide RelabelledAll, Sizes, Lengths, Savings, Counts, SizesMatch;
    RelabelledSizes(s.artifacts, t.artifacts, s.store);
  }

  lemma AllHeld(s: State, id: Id)
    requires Counted(s) && id in s.artifacts && s.artifacts[id].lifecycle != RETIRED
    ensures s.artifacts[id].contentDigest in s.store && s.store[s.artifacts[id].contentDigest].references >= 1
  {
    var cd := s.artifacts[id].contentDigest;
    assert CountedAt(s.artifacts, s.store, cd) && id in Holders(s.artifacts, cd);
  }

  lemma FewReferences(s: State, cd: Digest)
    requires Linked(s) && Counted(s) && cd in s.store
    ensures s.store[cd].references < U64_MAX
  {
    hide Linked;
    FewHolders(s, cd);
    assert CountedAt(s.artifacts, s.store, cd);
  }

  lemma PublishedSize(h: Bytes -> Digest, s: State, t: State, req: PublishRequest, d: Descriptor)
    requires Published(h, s, t, req, d)
    ensures d.sizeBytes == req.descriptor.sizeBytes
  {
    hide DescriptorFormat.Encodable, Link, GraphModel.Valid, Stored, ToI64;
  }

  lemma PublishedBalanced(h: Bytes -> Digest, s: State, t: State, req: PublishRequest, d: Descriptor,
                          contents: set<Bytes>)
    requires Linked(s) && Counted(s) && Balanced(s) && Published(h, s, t, req, d)
    requires Genuine(h, s.store, contents) && CollisionFree(h, contents) && req.content in contents
    requires d.sizeBytes == |req.content| < 0x8000_0000_0000_0000
    ensures Balanced(t)
  {
    hide Linked, Counted, Sizes, Lengths, Savings, Counts, SizesMatch, Stored, DescriptorFormat.Encodable, Link,
      GraphModel.Valid, Agrees;
    var cd := d.contentDigest;
    if cd in s.store {
      FewReferences(s, cd);
    }
    forall id | id in s.artifacts && s.artifacts[id].lifecycle != RETIRED
      ensures s.artifacts[id].contentDigest in s.store
    {
      AllHeld(s, id);
    }
    AddedSizes(s.artifacts, d);
    AddedMatch(s.artifacts, s.store, d, req.content);
    AgreesAfterPublish(s.counters, Sizes(s.artifacts), s.store, d.id, d.sizeBytes, cd, req.content);
    SameAgrees(t.counters, s.counters.(
      logicalArtifacts := s.counters.logicalArtifacts + 1, logicalBytes := s.counters.logicalBytes + d.sizeBytes,
      activeReferences := s.counters.activeReferences + 1,
      physicalBacking := s.counters.physicalBacking + if cd in s.store then 0 else 1,
      physicalBytes := s.counters.physicalBytes + if cd in s.store then 0 else d.sizeBytes),
      Sizes(t.artifacts), Lengths(t.store), Savings(t.store), Counts(t.store));
  }

  /** The running total of deduplicated bytes plays no part in the balance. */
  lemma SameAgrees(c: Counters, e: Counters, sizes: map<Id, int>, lengths: map<Digest, int>, savings: map<Digest, int>,
                   refs: map<Digest, int>)
    requires c == e.(dedupBytes := c.dedupBytes) && Agrees(e, sizes, lengths, savings, refs)
    ensures Agrees(c, sizes, lengths, savings, refs)
  {
  }

  lemma RetiredBalanced(s: State, t: State, id: Id)
    requires Counted(s) && Balanced(s) && RetiredOne(s, t, id)
    ensures Balanced(t)
  {
    hide Counted, Sizes, Lengths, Savings, Counts, Released, Agrees;
    var d := s.artifacts[id];
    NotYetRetired(d.lifecycle);
    AllHeld(s, id);
    RetiredSizes(s.artifacts, id, t.artifacts[id]);
    RetiredMatch(s.artifacts, s.store, id, t.artifacts[id]);
    hide SizesMatch, CanTransition;
    AgreesAfterRetire(s.counters, Sizes(s.artifacts), s.store, id, d.sizeBytes, d.contentDigest);
  }

  // ---- whole runs -----------------------------------------------------------------------

  predicate AllSized(calls: seq<Call>) {
    forall i :: 0 <= i < |calls| ==> Sized(calls[i])
  }

  lemma NewIsBalanced()
    ensures Balanced(NEW_CATALOG)
  {
    assert Sizes(NEW_CATALOG.artifacts) == map[];
    assert Lengths(NEW_CATALOG.store) == map[] && Savings(NEW_CATALOG.store) == map[] && Counts(NEW_CATALOG.store) == map[];
  }

  lemma {:induction false} RunKeepsBalanced(h: Bytes -> Digest, calls: seq<Call>, contents: set<Bytes>)
    requires AllReturn(h, calls) && NoRegister(calls) && AllSized(calls)
    requires Contents(calls) <= contents && CollisionFree(h, contents)
    ensures Balanced(After(h, calls))
  {
    if calls == [] {
      NewIsBalanced();
    } else {
      hide Do, Linked, Counted, Genuine, Balanced, CollisionFree, WellFormed;
      var init, c := calls[..|calls| - 1], calls[|calls| - 1];
      assert c.Publish? ==> c.request.content in Contents(calls);
      assert Contents(init) <= Contents(calls);
      RunKeepsBalanced(h, init, contents);
      RunKeepsLinked(h, init);
      RunKeepsCounted(h, init);
      RunKeepsGenuine(h, init, contents);
      ReturnKeepsBalanced(h, After(h, init), c, contents);
    }
  }

  /** Over any run of publications and lifecycle calls that returned, in which each request
      declares the size of its content: every counter is what its name says, and the reported
      deduplicated bytes are exactly what sharing saves. */
  lemma CountersAreDefinitions(h: Bytes -> Digest, calls: seq<Call>, s: State)
    requires AllReturn(h, calls) && NoRegister(calls) && AllSized(calls) && CollisionFree(h, Contents(calls))
    requires s == After(h, calls)
    ensures var held := set id | id in s.artifacts && s.artifacts[id].lifecycle != RETIRED; var a := Snapshot(s);
      && a.logicalArtifacts == a.activeReferences == |held|
      && a.logicalBytes == Total(Sizes(s.artifacts))
      && a.physicalBacking == |s.store|
      && a.physicalBytes == Total(Lengths(s.store))
      && a.dedupBytes == Total(Savings(s.store))
  {
    hide After, AllReturn, WellFormed;
    RunKeepsBalanced(h, calls, Contents(calls));
    RunKeepsCounted(h, calls);
    BooksRead(s);
  }

  /** Once everything is retired, the accounts are zero if and only if nothing was counted as
      invalidated or superseded. */
  lemma RetiredIsZeroIff(h: Bytes -> Digest, calls: seq<Call>, s: State)
    requires AllReturn(h, calls) && NoRegister(calls) && AllSized(calls) && CollisionFree(h, Contents(calls))
    requires s == After(h, calls) && forall id :: id in s.artifacts ==> s.artifacts[id].lifecycle == RETIRED
    ensures IsZero(Snapshot(s)) <==> s.counters.invalidations == 0 && s.counters.supersessions == 0
  {
    hide After, AllReturn, WellFormed;
    RunKeepsBalanced(h, calls, Contents(calls));
    RunKeepsCounted(h, calls);
    BooksRead(s);
    assert (set id | id in s.artifacts && s.artifacts[id].lifecycle != RETIRED) == {};
  }

  lemma BooksRead(s: State)
    requires Balanced(s) && Counted(s)
    ensures var held := set id | id in s.artifacts && s.artifacts[id].lifecycle != RETIRED; var a := Snapshot(s);
      && |Sizes(s.artifacts)| == |held| && |Lengths(s.store)| == |s.store|
      && a.dedupBytes == Total(Savings(s.store))
      && (held == {} ==> (IsZero(a) <==> a.invalidations == 0 && a.supersessions == 0))
  {
    hide Counted;
    var held := set id | id in s.artifacts && s.artifacts[id].lifecycle != RETIRED;
    assert Sizes(s.artifacts).Keys == held;
    assert Lengths(s.store).Keys == s.store.Keys;
    if held == {} {
      assert Sizes(s.artifacts) == map[];
      forall id | id in s.artifacts ensures s.artifacts[id].lifecycle == RETIRED {
        assert s.artifacts[id].lifecycle != RETIRED ==> id in held;
      }
      NothingStored(s);
      assert Lengths(s.store) == map[] && Savings(s.store) == map[];
    }
  }

  lemma NothingStored(s: State)
    requires Counted(s) && forall id :: id in s.artifacts ==> s.artifacts[id].lifecycle == RETIRED
    ensures s.store == map[]
  {
    forall cd ensures cd !in s.store {
      assert CountedAt(s.artifacts, s.store, cd);
    }
  }

  /** In such a run the counters never stand in the way of a retirement: it returns exactly in
      the states that can be left for RETIRED. */
  lemma RetireReturnsIff(h: Bytes -> Digest, calls: seq<Call>, id: Id, a: Authority)
    requires AllReturn(h, calls) && NoRegister(calls) && AllSized(calls) && CollisionFree(h, Contents(calls))
    requires id in After(h, calls).artifacts && Fence(After(h, calls).epoch, After(h, calls).boot, a).Returned?
    ensures Do(h, After(h, calls), Retire(id, a)).0.Returned? <==>
      After(h, calls).artifacts[id].lifecycle in {DECLARED, PUBLISHED, ACTIVE, INVALIDATED, SUPERSEDED, QUARANTINED}
  {
    hide After, AllReturn, WellFormed, Balanced, Counted, CanTransition, AllSettling;
    var s := After(h, calls);
    RunKeepsSettling(h, calls);
    SettlingAt(s.artifacts, id);
    EnteredFrom(s.artifacts[id].lifecycle);
    RunKeepsBalanced(h, calls, Contents(calls));
    RunKeepsCounted(h, calls);
    if CanTransition(s.artifacts[id].lifecycle, RETIRED) { RetireSucceeds(s, id); }
  }

  lemma RetireSucceeds(s: State, id: Id)
    requires Balanced(s) && Counted(s) && id in s.artifacts && CanTransition(s.artifacts[id].lifecycle, RETIRED)
    ensures RetireLocked(s, id).0.Returned?
  {
    hide Counted, SizesMatch, CanTransition, Total;
    var d := s.artifacts[id];
    NotYetRetired(d.lifecycle);
    AllHeld(s, id);
    TotalCovers(Sizes(s.artifacts), id);
    TotalCovers(Lengths(s.store), d.contentDigest);
    assert id in Sizes(s.artifacts).Keys;
  }

  // ---- runs without invalidations and supersessions -------------------------------------

  predicate Quiet(calls: seq<Call>) {
    forall i :: 0 <= i < |calls| ==> !calls[i].Invalidate? && !calls[i].Supersede? && !calls[i].Register?
  }

  lemma QuietStep(h: Bytes -> Digest, s: State, c: Call)
    requires WellFormed(s) && Do(h, s, c).0.Returned? && !c.Invalidate? && !c.Supersede? && !c.Register?
    ensures var t := Do(h, s, c).1;
      t.counters.invalidations == s.counters.invalidations && t.counters.supersessions == s.counters.supersessions
  {
    hide WellFormed, Complete, PublishLocked, RetireLocked;
    match c
    case Publish(req) =>
      CompleteFields(h, s.nextGeneration, req);
      PublishEffect(h, s, req, Complete(h, s.nextGeneration, req).value);
      hide DescriptorFormat.Encodable, Link, Stored;
    case Retire(id, a) => RetireEffect(s, id);
    case _ =>
  }

  lemma {:induction false} QuietRun(h: Bytes -> Digest, calls: seq<Call>)
    requires AllReturn(h, calls) && Quiet(calls)
    ensures After(h, calls).counters.invalidations == 0 && After(h, calls).counters.supersessions == 0
  {
    if calls != [] {
      hide Do, WellFormed;
      QuietRun(h, calls[..|calls| - 1]);
      QuietStep(h, After(h, calls[..|calls| - 1]), calls[|calls| - 1]);
    }
  }

  /** Retiring everything brings the accounts back to zero. */
  lemma RetiringAllIsZero(h: Bytes -> Digest, calls: seq<Call>, s: State)
    requires AllReturn(h, calls) && Quiet(calls) && AllSized(calls) && CollisionFree(h, Contents(calls))
    requires s == After(h, calls) && forall id :: id in s.artifacts ==> s.artifacts[id].lifecycle == RETIRED
    ensures IsZero(Snapshot(s))
  {
    hide After, AllReturn, WellFormed;
    QuietRun(h, calls);
    RetiredIsZeroIff(h, calls, s);
  }
}
