/** What a dependency digest distinguishes. The bytes of a direct edge and those of an indirect
    dependency carry no tag: an indirect one is marked by a zero where an edge has its
    generation, so an edge of generation zero can be taken for one. */
module DigestDistinctions {
  import opened Types
  import opened Collections
  import opened Sorting
  import opened Encoding
  import opened GraphModel
  import opened DependencyDigests

  /** The generation and digest the first edge to `x` asks for. */
  function Asked(refs: seq<DependencyRef>, x: Id): Option<(U64, Digest)> {
    match EdgeTo(refs, x)
    case Some(dep) => Some((dep.generation, dep.digest))
    case None => None
  }

  predicate Undated(refs: seq<DependencyRef>, x: Id) {
    Asked(refs, x).Some? && Asked(refs, x).value.0 == 0
  }

  // ---- reading the bytes back -----------------------------------------------------------

  lemma {:induction false} FeedFront(refs: seq<DependencyRef>, ids: seq<Id>)
    requires ids != []
    ensures Feed(refs, ids) == FeedOne(refs, ids[0]) + Feed(refs, ids[1..])
  {
    hide FeedOne;
    var init, last := ids[..|ids| - 1], ids[|ids| - 1];
    if init == [] {
      assert ids[1..] == [] && Feed(refs, init) == [];
    } else {
      FeedFront(refs, init);
      assert ids[1..][..|ids[1..]| - 1] == init[1..];
      assert Feed(refs, ids) == FeedOne(refs, init[0]) + Feed(refs, init[1..]) + FeedOne(refs, last);
    }
  }

  lemma SplitHead(a: Bytes, x: Bytes, b: Bytes, y: Bytes)
    requires a + x == b + y && |a| == |b|
    ensures a == b && x == y
  {
    assert a == (a + x)[..|a|] && b == (b + y)[..|b|];
    assert x == (a + x)[|a|..] && y == (b + y)[|b|..];
  }

  /** The entry of one dependency: its identifier, a generation, and a digest if there is an edge. */
  function Entry(x: Id, asked: Option<(U64, Digest)>): Bytes {
    match asked
    case Some((n, d)) => BE(x, 16) + (BE(n, 8) + BE(d, 32))
    case None => BE(x, 16) + BE(0, 8)
  }

  lemma FeedOneIsEntry(refs: seq<DependencyRef>, x: Id)
    ensures FeedOne(refs, x) == Entry(x, Asked(refs, x))
  {
    hide BE;
  }

  function DigestPart(asked: Option<(U64, Digest)>): Bytes {
    if asked.Some? then BE(asked.value.1, 32) else []
  }

  function GenerationPart(asked: Option<(U64, Digest)>): U64 {
    if asked.Some? then asked.value.0 else 0
  }

  lemma EntryParts(x: Id, p: Option<(U64, Digest)>, rest: Bytes)
    ensures Entry(x, p) + rest == BE(x, 16) + (BE(GenerationPart(p), 8) + (DigestPart(p) + rest))
  {
    hide BE;
  }

  /** Two lists that begin with an entry agree on it, provided that both or neither have an
      edge of generation zero there. */
  lemma EntriesAgree(x: Id, p: Option<(U64, Digest)>, rest: Bytes, y: Id, q: Option<(U64, Digest)>, more: Bytes)
    requires Entry(x, p) + rest == Entry(y, q) + more
    requires x == y ==> ((p.Some? && p.value.0 == 0) <==> (q.Some? && q.value.0 == 0))
    ensures x == y && p == q && rest == more
  {
    hide BE, Entry;
    var n, m, u, v := GenerationPart(p), GenerationPart(q), DigestPart(p), DigestPart(q);
    EntryParts(x, p, rest);
    EntryParts(y, q, more);
    SplitHead(BE(x, 16), BE(n, 8) + (u + rest), BE(y, 16), BE(m, 8) + (v + more));
    SplitHead(BE(n, 8), u + rest, BE(m, 8), v + more);
    BigEndian16(x);
    BigEndian16(y);
    BigEndian8(n);
    BigEndian8(m);
    assert p.Some? <==> q.Some?;
    SplitHead(u, rest, v, more);
    if p.Some? {
      BigEndian32(p.value.1);
      BigEndian32(q.value.1);
    }
  }

  lemma {:induction false} FeedsApart(refs: seq<DependencyRef>, ids: seq<Id>, refs': seq<DependencyRef>, ids': seq<Id>)
    requires Feed(refs, ids) == Feed(refs', ids') && forall x :: Undated(refs, x) <==> Undated(refs', x)
    ensures ids == ids' && forall x :: x in ids ==> Asked(refs, x) == Asked(refs', x)
    decreases |ids|
  {
    hide FeedOne, Asked, BE;
    if ids != [] {
      FeedFront(refs, ids);
      FeedOneIsEntry(refs, ids[0]);
      EntryNotEmpty(ids[0], Asked(refs, ids[0]));
    }
    if ids' != [] {
      FeedFront(refs', ids');
      FeedOneIsEntry(refs', ids'[0]);
      EntryNotEmpty(ids'[0], Asked(refs', ids'[0]));
    }
    if ids == [] || ids' == [] {
      assert |Feed(refs, ids)| == 0 <==> ids == [];
      assert |Feed(refs', ids')| == 0 <==> ids' == [];
    } else {
      var x, y := ids[0], ids'[0];
      assert Undated(refs, x) <==> Undated(refs', x);
      EntriesAgree(x, Asked(refs, x), Feed(refs, ids[1..]), y, Asked(refs', y), Feed(refs', ids'[1..]));
      FeedsApart(refs, ids[1..], refs', ids'[1..]);
      assert ids == [x] + ids[1..] && ids' == [y] + ids'[1..];
    }
  }

  lemma EntryNotEmpty(x: Id, asked: Option<(U64, Digest)>)
    ensures |Entry(x, asked)| > 0
  {
  }

  lemma {:induction false} FeedsAlike(refs: seq<DependencyRef>, refs': seq<DependencyRef>, ids: seq<Id>)
    requires forall x :: x in ids ==> Asked(refs, x) == Asked(refs', x)
    ensures Feed(refs, ids) == Feed(refs', ids)
  {
    if ids != [] {
      hide FeedOne, Asked;
      var init, last := ids[..|ids| - 1], ids[|ids| - 1];
      FeedsAlike(refs, refs', init);
      FeedOneIsEntry(refs, last);
      FeedOneIsEntry(refs', last);
    }
  }

  // ---- graphs ---------------------------------------------------------------------------

  /** `id` has an edge to `x` that asks for generation `n` and digest `d`. */
  ghost predicate EdgeAsks(g: Graph, id: Id, x: Id, n: U64, d: Digest) {
    exists dep :: dep in Direct(g, id) && dep.artifact == x && dep.generation == n && dep.digest == d
  }

  /** The same transitive dependencies, and direct edges that ask for the same. */
  ghost predicate SameDependencies(g: Graph, k: Graph, id: Id) {
    && (forall x :: DependsOn(g, id, x) <==> DependsOn(k, id, x))
    && (forall x, n, d :: EdgeAsks(g, id, x, n, d) <==> EdgeAsks(k, id, x, n, d))
  }

  /** The edge to `x` leaves its generation at zero. */
  ghost predicate UndatedEdge(g: Graph, id: Id, x: Id) {
    exists d: Digest :: EdgeAsks(g, id, x, 0, d)
  }

  ghost predicate SameUndated(g: Graph, k: Graph, id: Id) {
    forall x :: UndatedEdge(g, id, x) <==> UndatedEdge(k, id, x)
  }

  lemma AskedIs(g: Graph, id: Id, x: Id, n: U64, d: Digest)
    requires Valid(g)
    ensures EdgeAsks(g, id, x, n, d) <==> Asked(Direct(g, id), x) == Some((n, d))
    ensures Asked(Direct(g, id), x).Some? ==> DependsOn(g, id, x)
  {
    assert NoRepeats(g, id);
    EdgeToIs(Direct(g, id), x);
    if x in Targets(Direct(g, id)) { EdgeDepends(g, id, x); }
  }

  lemma UndatedIs(g: Graph, id: Id, x: Id)
    requires Valid(g)
    ensures Undated(Direct(g, id), x) <==> UndatedEdge(g, id, x)
  {
    hide Valid, EdgeAsks, Asked;
    forall d: Digest ensures EdgeAsks(g, id, x, 0, d) <==> Asked(Direct(g, id), x) == Some((0, d)) { AskedIs(g, id, x, 0, d); }
    if Undated(Direct(g, id), x) { assert EdgeAsks(g, id, x, 0, Asked(Direct(g, id), x).value.1); }
  }

  lemma ClosureIs(g: Graph, id: Id, x: Id)
    requires Valid(g)
    ensures x in SortedIds(Closure(g, id)) <==> DependsOn(g, id, x)
  {
    if DependsOn(g, id, x) { DependsOnNode(g, id, x); }
  }

  lemma SameInputSame(g: Graph, k: Graph, id: Id)
    requires Valid(g) && Valid(k) && DigestInput(g, id) == DigestInput(k, id) && SameUndated(g, k, id)
    ensures SameDependencies(g, k, id)
  {
    hide Valid, Asked, EdgeAsks, DependsOn, Closure, Feed, Undated, Direct;
    var refs, refs' := Direct(g, id), Direct(k, id);
    forall x ensures Undated(refs, x) <==> Undated(refs', x) { UndatedIs(g, id, x); UndatedIs(k, id, x); }
    FeedsApart(refs, SortedIds(Closure(g, id)), refs', SortedIds(Closure(k, id)));
    forall x ensures DependsOn(g, id, x) <==> DependsOn(k, id, x) { ClosureIs(g, id, x); ClosureIs(k, id, x); }
    forall x, n, d ensures EdgeAsks(g, id, x, n, d) <==> EdgeAsks(k, id, x, n, d) {
      AskedIs(g, id, x, n, d);
      AskedIs(k, id, x, n, d);
      ClosureIs(g, id, x);
      ClosureIs(k, id, x);
    }
  }

  lemma AskedSame(g: Graph, k: Graph, id: Id, x: Id)
    requires Valid(g) && Valid(k) && SameDependencies(g, k, id)
    ensures Asked(Direct(g, id), x) == Asked(Direct(k, id), x)
  {
    hide Valid, Asked, EdgeAsks, DependsOn, Direct;
    var a, b := Asked(Direct(g, id), x), Asked(Direct(k, id), x);
    if a.Some? { AskedIs(g, id, x, a.value.0, a.value.1); AskedIs(k, id, x, a.value.0, a.value.1); }
    if b.Some? { AskedIs(g, id, x, b.value.0, b.value.1); AskedIs(k, id, x, b.value.0, b.value.1); }
  }

  lemma SameSameInput(g: Graph, k: Graph, id: Id)
    requires Valid(g) && Valid(k) && SameDependencies(g, k, id)
    ensures DigestInput(g, id) == DigestInput(k, id) && SameUndated(g, k, id)
  {
    hide Valid, Asked, EdgeAsks, DependsOn, Feed, Direct;
    forall x ensures Asked(Direct(g, id), x) == Asked(Direct(k, id), x) { AskedSame(g, k, id, x); }
    forall x ensures x in Closure(g, id) <==> x in Closure(k, id) { ClosureIs(g, id, x); ClosureIs(k, id, x); }
    assert Closure(g, id) == Closure(k, id);
    FeedsAlike(Direct(g, id), Direct(k, id), SortedIds(Closure(g, id)));
  }

  /** Two graphs feed the same bytes for a node, and leave the same of its edges undated,
      exactly when it has the same transitive dependencies and its edges ask for the same
      generations and digests. So equal bytes mean equal dependencies exactly when the same
      edges are undated; in particular when none is. */
  lemma DigestDistinguishesIff(g: Graph, k: Graph, id: Id)
    requires Valid(g) && Valid(k)
    ensures SameDependencies(g, k, id) <==> DigestInput(g, id) == DigestInput(k, id) && SameUndated(g, k, id)
  {
    hide Valid, SameDependencies, SameUndated, DigestInput;
    if SameDependencies(g, k, id) { SameSameInput(g, k, id); }
    if DigestInput(g, id) == DigestInput(k, id) && SameUndated(g, k, id) { SameInputSame(g, k, id); }
  }

  ghost predicate AllDated(g: Graph, id: Id) {
    forall dep :: dep in Direct(g, id) ==> dep.generation != 0
  }

  lemma DatedDigestsDistinguish(g: Graph, k: Graph, id: Id)
    requires Valid(g) && Valid(k) && AllDated(g, id) && AllDated(k, id)
    ensures DigestInput(g, id) == DigestInput(k, id) <==> SameDependencies(g, k, id)
  {
    hide Valid, SameDependencies, DigestInput, Direct;
    forall x ensures !UndatedEdge(g, id, x) && !UndatedEdge(k, id, x) { }
    DigestDistinguishesIff(g, k, id);
  }

  // ---- two graphs that are taken for each other -----------------------------------------

  lemma {:induction false} BigEndianSplit(a: nat, b: nat, n: nat, k: nat)
    requires b < Pow256(k)
    ensures BE(a * Pow256(k) + b, n + k) == BE(a, n) + BE(b, k)
  {
    if k == 0 {
      assert BE(a, n) + BE(b, k) == BE(a, n);
    } else {
      var v, p := a * Pow256(k) + b, Pow256(k - 1);
      assert a * (256 * p) == 256 * (a * p);
      assert v / 256 == a * p + b / 256 && v % 256 == b % 256;
      BigEndianSplit(a, b / 256, n, k - 1);
    }
  }

  /** The bytes of these two digests read as identifiers and numbers. */
  const FIRST_DIGEST: Digest := 0x3_0000_0000_0000_0005_0000_0000_0000_0000
  const SECOND_DIGEST: Digest := 0x2_0000_0000_0000_0000

  lemma DigestBytesAre()
    ensures BE(FIRST_DIGEST, 32) == BE(3, 16) + BE(5, 8) + BE(0, 8)
    ensures BE(SECOND_DIGEST, 32) == BE(0, 8) + (BE(2, 16) + BE(0, 8))
  {
    hide BE;
    Widths();
    Pow256Sum(16, 8);
    BigEndianSplit(3, 5, 16, 8);
    BigEndianSplit(0x3_0000_0000_0000_0005, 0, 24, 8);
    BigEndianSplit(2, 0, 16, 8);
    BigEndianSplit(0, 0x2_0000_0000_0000_0000, 8, 24);
  }

  const TO_FIRST := DependencyRef(1, 0, 0, FIRST_DIGEST, 0)
  const TO_SECOND := DependencyRef(3, 0, 5, SECOND_DIGEST, 0)

  /** A chain from 9 through `first` to `last`; 1, 2 and 3 are nodes too. */
  function Chain(dep: DependencyRef, last: Id): Graph {
    var x := dep.artifact;
    Graph({9 as Id, 1, 2, 3},
          map[9 := [dep], 1 := [], 2 := [], 3 := []][x := [DependencyRef(last, 0, 1, 0, 0)]],
          map[9 := [], 1 := [], 2 := [], 3 := []][x := [9]][last := [x]])
  }

  function Rank(x: Id, first: Id): nat { if x == 9 then 2 else if x == first then 1 else 0 }

  lemma ChainEdges(dep: DependencyRef, last: Id, a: Id, b: Id)
    requires {dep.artifact, last} <= {1 as Id, 2, 3} && dep.artifact != last
    ensures Edge(Chain(dep, last), a, b) <==> (a == 9 && b == dep.artifact) || (a == dep.artifact && b == last)
  {
    var g := Chain(dep, last);
    var t := Targets(Direct(g, a));
    if a == 9 || a == dep.artifact { assert t == [t[0]]; } else { assert t == []; }
  }

  lemma {:induction false} RankFalls(dep: DependencyRef, last: Id, p: seq<Id>)
    requires {dep.artifact, last} <= {1 as Id, 2, 3} && dep.artifact != last && IsPath(Chain(dep, last), p)
    ensures Rank(p[0], dep.artifact) >= Rank(p[|p| - 1], dep.artifact)
  {
    if |p| > 1 {
      hide Chain;
      var q := p[1..];
      forall i | 0 <= i < |q| - 1 ensures Edge(Chain(dep, last), q[i], q[i + 1]) {
        assert q[i] == p[i + 1] && q[i + 1] == p[i + 2];
      }
      RankFalls(dep, last, q);
      assert Edge(Chain(dep, last), p[0], p[0 + 1]);
      ChainEdges(dep, last, p[0], p[1]);
    }
  }

  lemma ChainValid(dep: DependencyRef, last: Id)
    requires {dep.artifact, last} <= {1 as Id, 2, 3} && dep.artifact != last
    ensures Valid(Chain(dep, last))
  {
    var g := Chain(dep, last);
    forall a, b | Edge(g, a, b) ensures b in g.nodes { ChainEdges(dep, last, a, b); }
    forall b ensures InverseAt(g, b) {
      forall a ensures b in g.ins ==> (a in g.ins[b] <==> Edge(g, a, b)) { ChainEdges(dep, last, a, b); }
    }
    forall a ensures !DependsOn(g, a, a) { ChainNoCycle(dep, last, a); }
  }

  lemma ChainNoCycle(dep: DependencyRef, last: Id, a: Id)
    requires {dep.artifact, last} <= {1 as Id, 2, 3} && dep.artifact != last
    ensures !DependsOn(Chain(dep, last), a, a)
  {
    hide Chain;
    if c :| Through(Chain(dep, last), a, c, a) {
      var p :| Joins(Chain(dep, last), p, c, a);
      RankFalls(dep, last, p);
      ChainEdges(dep, last, a, c);
    }
  }

  lemma ChainClosure(dep: DependencyRef, last: Id, x: Id)
    requires {dep.artifact, last} <= {1 as Id, 2, 3} && dep.artifact != last
    ensures DependsOn(Chain(dep, last), 9, x) <==> x == dep.artifact || x == last
  {
    hide Chain;
    var g := Chain(dep, last);
    ChainEdges(dep, last, 9, dep.artifact);
    ChainEdges(dep, last, dep.artifact, last);
    EdgeDepends(g, 9, dep.artifact);
    ReachesSelf(g, last);
    EdgeThenReaches(g, dep.artifact, last, last);
    assert Through(g, 9, dep.artifact, last);
    if c :| Through(g, 9, c, x) {
      ChainEdges(dep, last, 9, c);
      forall a, b | a in {dep.artifact, last} && Edge(g, a, b) ensures b in {dep.artifact, last} { ChainEdges(dep, last, a, b); }
      ClosedUnderReaches(g, {dep.artifact, last}, c, x);
    }
  }

  lemma ChainInput(dep: DependencyRef, last: Id, low: Id, high: Id)
    requires {dep.artifact, last} == {low, high} <= {1 as Id, 2, 3} && low < high
    ensures DigestInput(Chain(dep, last), 9) == Entry(low, Asked([dep], low)) + Entry(high, Asked([dep], high))
  {
    hide Entry, FeedOne;
    var g := Chain(dep, last);
    var ids := SortedIds(Closure(g, 9));
    ChainValid(dep, last);
    forall x ensures x in ids <==> x in [low, high] { ChainClosure(dep, last, x); ClosureIs(g, 9, x); }
    AscendingUnique(ids, [low, high]);
    assert Direct(g, 9) == [dep];
    FeedFront([dep], [low, high]);
    assert [low, high][1..] == [high];
    FeedFront([dep], [high]);
    assert Feed([dep], [high][1..]) == [];
    FeedOneIsEntry([dep], low);
    FeedOneIsEntry([dep], high);
  }

  lemma OneAsked(dep: DependencyRef, x: Id)
    ensures Asked([dep], x) == if x == dep.artifact then Some((dep.generation, dep.digest)) else None
  {
    assert [dep][1..] == [] && EdgeTo([dep][1..], x) == None;
    assert EdgeTo([dep], x) == if x == dep.artifact then Some(dep) else None;
  }

  /** Without generations it can go wrong: these two graphs are different, and so are the
      dependencies of 9 in them, but its digest is taken over the same bytes. In the one it
      depends on 1, undated, and through it on 2; in the other on 3 and through it on 1. */
  lemma UndatedDigestsCollide()
    ensures var g, k := Chain(TO_FIRST, 2), Chain(TO_SECOND, 1);
      && Valid(g) && Valid(k) && DigestInput(g, 9) == DigestInput(k, 9)
      && DependsOn(g, 9, 2) && !DependsOn(k, 9, 2)
  {
    hide Chain, BE, Valid, DependsOn, DigestInput;
    ChainValid(TO_FIRST, 2);
    ChainValid(TO_SECOND, 1);
    ChainClosure(TO_FIRST, 2, 2);
    ChainClosure(TO_SECOND, 1, 2);
    ChainInput(TO_FIRST, 2, 1, 2);
    ChainInput(TO_SECOND, 1, 1, 3);
    DigestBytesAre();
    OneAsked(TO_FIRST, 1);
    OneAsked(TO_FIRST, 2);
    OneAsked(TO_SECOND, 1);
    OneAsked(TO_SECOND, 3);
    assert Entry(1, Some((0, FIRST_DIGEST))) + Entry(2, None) ==
      BE(1, 16) + BE(0, 8) + BE(3, 16) + BE(5, 8) + BE(0, 8) + BE(2, 16) + BE(0, 8);
    assert Entry(1, None) + Entry(3, Some((5, SECOND_DIGEST))) ==
      BE(1, 16) + BE(0, 8) + BE(3, 16) + BE(5, 8) + BE(0, 8) + BE(2, 16) + BE(0, 8);
  }
}
