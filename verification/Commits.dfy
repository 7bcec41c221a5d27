/** What transactions that commit leave behind: the artifacts their steps describe, listed by
    the indexes, and charged to the accounts. Everything is read off the steps themselves. */
module Commits {
  import opened Types
  import opened Sorting
  import opened Accounting
  import opened GraphModel
  import opened DescriptorFormat
  import opened Derivation
  import opened CatalogModel
  import opened CatalogEffects
  import CatalogRuns
  import opened DependencyDigests
  import opened TransactionModel
  import opened TransactionRuns

  /** What the steps of one transaction say: its request, the content it produced and the state
      its last report gave, if any, and how far it is. */
  datatype Draft = Draft(request: PublishRequest, content: Option<Bytes>, verdict: Option<ValidationState>,
                         stage: LifecycleState)

  /** Every check passed, and the report says valid or intact. */
  predicate Passed(report: Report) {
    (forall i :: 0 <= i < |report.checks| ==> report.checks[i]) && report.state in {VALIDATED, INTEGRITY_OK}
  }

  /** The steps of transaction `k` since it last began. */
  function Drafted(ev: Run, k: nat): Option<Draft> {
    if ev == [] then None
    else
      var (j, e) := ev[|ev| - 1];
      var before := Drafted(ev[..|ev| - 1], k);
      if j != k then before
      else if e.Begin? then Some(Draft(e.req, None, None, BUILDING))
      else if before.None? then None
      else if e.Fill? then Some(before.value.(content := Some(e.content), stage := VALIDATING))
      else if e.Check? then
        Some(before.value.(verdict := Some(e.report.state), stage := if Passed(e.report) then VALID else FAILED))
      else before
  }

  /** The transactions that committed, in order. */
  function Committed(ev: Run): seq<Draft> {
    if ev == [] then []
    else
      var init := ev[..|ev| - 1];
      var (k, e) := ev[|ev| - 1];
      Committed(init) + if e.Finish? && Drafted(init, k).Some? then [Drafted(init, k).value] else []
  }

  /** The identifier asked for, or the derived one. */
  function IdFor(h: Bytes -> Digest, d: Descriptor): Id {
    if d.id != 0 then d.id else IdOfDigest(h(DerivationBytes(d)))
  }

  function CommittedIds(h: Bytes -> Digest, done: seq<Draft>): set<Id> {
    set i | 0 <= i < |done| :: IdFor(h, done[i].request.descriptor)
  }

  /** The declared size, as a signed number, or else the length of the content. */
  function SizeOf(req: PublishRequest): int {
    if req.descriptor.sizeBytes == 0 then |req.content|
    else if req.descriptor.sizeBytes < 0x8000_0000_0000_0000 then req.descriptor.sizeBytes
    else req.descriptor.sizeBytes - 0x1_0000_0000_0000_0000
  }

  function TotalSize(done: seq<Draft>): int {
    if done == [] then 0 else TotalSize(done[..|done| - 1]) + SizeOf(done[|done| - 1].request)
  }

  /** `d` is the descriptor that was asked for, under its identifier, with the digest of what
      was produced and the validation state that was reported. */
  predicate Describes(h: Bytes -> Digest, x: Draft, d: Descriptor) {
    var asked := x.request.descriptor;
    d == asked.(id := IdFor(h, asked), lifecycle := d.lifecycle, dependencyDigest := d.dependencyDigest,
                contentDigest := if x.content.Some? then h(x.content.value) else asked.contentDigest,
                validation := if x.verdict.Some? then x.verdict.value else asked.validation)
  }

  // ---- the artifacts --------------------------------------------------------------------

  predicate OpenOk(h: Bytes -> Digest, s: State, w: State, tx: Tx, x: Option<Draft>) {
    && x.Some? && tx.id == IdFor(h, x.value.request.descriptor) && tx.bytes == |x.value.request.content|
    && tx.id in w.artifacts && Describes(h, x.value, w.artifacts[tx.id]) && w.artifacts[tx.id].lifecycle == x.value.stage
    && tx.id !in w.indexed && tx.id !in s.artifacts
  }

  predicate DoneOk(h: Bytes -> Digest, w: State, x: Draft) {
    var id := IdFor(h, x.request.descriptor);
    id in w.indexed && id in w.artifacts && Describes(h, x, w.artifacts[id]) && w.artifacts[id].lifecycle == PUBLISHED
  }

  /** Every catalogued artifact was there before, is open, or has been committed. */
  predicate Known(s: State, w: World, id: Id) {
    id in w.cat.artifacts ==> id in s.artifacts || id in w.cat.indexed || exists k :: k in w.open && w.open[k].id == id
  }

  ghost predicate OpenApart(open: map<nat, Tx>) {
    forall j, k :: j in open && k in open && j != k ==> open[j].id != open[k].id
  }

  predicate Untouched(s: State, w: State) {
    forall id :: id in s.artifacts ==> id in w.artifacts && w.artifacts[id] == s.artifacts[id]
  }

  ghost predicate Opens(h: Bytes -> Digest, s: State, w: World, ev: Run) {
    OpenApart(w.open) && forall k :: k in w.open ==> OpenOk(h, s, w.cat, w.open[k], Drafted(ev, k))
  }

  predicate Dones(h: Bytes -> Digest, s: State, w: State, done: seq<Draft>) {
    && (forall i :: 0 <= i < |done| ==> DoneOk(h, w, done[i]))
    && w.indexed == s.indexed + CommittedIds(h, done)
  }

  ghost predicate Kept(h: Bytes -> Digest, s: State, w: World, ev: Run) {
    && WellFormed(w.cat) && Untouched(s, w.cat) && (forall id :: Known(s, w, id))
    && Opens(h, s, w, ev) && Dones(h, s, w.cat, Committed(ev))
  }

  /** `more` is `ev` and one more step, of `k`, that does not commit. */
  ghost predicate OneStep(ev: Run, more: Run, k: nat) {
    Committed(more) == Committed(ev) && forall j: nat :: j != k ==> Drafted(more, j) == Drafted(ev, j)
  }

  lemma StepDrafts(ev: Run, k: nat, e: Event)
    ensures forall j: nat :: j != k ==> Drafted(ev + [(k, e)], j) == Drafted(ev, j)
    ensures Drafted(ev + [(k, e)], k) ==
      if e.Begin? then Some(Draft(e.req, None, None, BUILDING))
      else if Drafted(ev, k).None? then None
      else if e.Fill? then Some(Drafted(ev, k).value.(content := Some(e.content), stage := VALIDATING))
      else if e.Check? then
        Some(Drafted(ev, k).value.(verdict := Some(e.report.state), stage := if Passed(e.report) then VALID else FAILED))
      else Drafted(ev, k)
    ensures Committed(ev + [(k, e)]) ==
      Committed(ev) + if e.Finish? && Drafted(ev, k).Some? then [Drafted(ev, k).value] else []
  {
    assert (ev + [(k, e)])[..|ev|] == ev;
  }

  lemma OpenStill(h: Bytes -> Digest, s: State, w: State, v: State, tx: Tx, x: Option<Draft>)
    requires OpenOk(h, s, w, tx, x) && tx.id !in v.indexed && tx.id in v.artifacts && v.artifacts[tx.id] == w.artifacts[tx.id]
    ensures OpenOk(h, s, v, tx, x)
  {
  }

  lemma OpenUnchanged(h: Bytes -> Digest, s: State, w: State, v: State, tx: Tx, other: Id, x: Option<Draft>)
    requires OpenOk(h, s, w, tx, x) && tx.id != other && v.indexed == w.indexed
    requires other in v.artifacts && v.artifacts == w.artifacts[other := v.artifacts[other]]
    ensures OpenOk(h, s, v, tx, x)
  {
    hide Describes, IdFor;
  }

  lemma OpenRewritten(h: Bytes -> Digest, s: State, w: State, v: State, tx: Tx, tv: Tx, x: Option<Draft>, y: Option<Draft>)
    requires OpenOk(h, s, w, tx, x) && tv.id == tx.id && tv.bytes == tx.bytes && v.indexed == w.indexed
    requires tx.id in v.artifacts && y.Some? && x.Some? && y.value.request == x.value.request
    requires Describes(h, y.value, v.artifacts[tx.id]) && v.artifacts[tx.id].lifecycle == y.value.stage
    ensures OpenOk(h, s, v, tv, y)
  {
    hide Describes, IdFor;
  }

  /** What is committed is indexed, so no open transaction touches it. */
  lemma DoneStill(h: Bytes -> Digest, w: State, v: State, x: Draft)
    requires DoneOk(h, w, x) && w.indexed <= v.indexed && w.indexed <= w.artifacts.Keys
    requires forall id :: id in w.indexed ==> id in v.artifacts && v.artifacts[id] == w.artifacts[id]
    ensures DoneOk(h, v, x)
  {
  }

  /** A step that rewrites the artifact of an open transaction. */
  ghost predicate Rewrites(h: Bytes -> Digest, w: World, v: World, ev: Run, more: Run, k: nat, d: Descriptor) {
    && k in w.open && OneStep(ev, more, k)
    && k in v.open && v.open == w.open[k := v.open[k]] && v.open[k].id == w.open[k].id && v.open[k].bytes == w.open[k].bytes
    && v.cat.artifacts == w.cat.artifacts[w.open[k].id := d] && v.cat.indexed == w.cat.indexed && Valid(v.cat.graph)
    && Drafted(more, k).Some? && Drafted(ev, k).Some? && Drafted(more, k).value.request == Drafted(ev, k).value.request
    && Describes(h, Drafted(more, k).value, d) && d.lifecycle == Drafted(more, k).value.stage
  }

  lemma RewriteOpens(h: Bytes -> Digest, s: State, w: World, v: World, ev: Run, more: Run, k: nat, d: Descriptor)
    requires Opens(h, s, w, ev) && Rewrites(h, w, v, ev, more, k, d)
    ensures Opens(h, s, v, more)
  {
    hide Valid, Describes, IdFor, Drafted, Committed, OpenOk;
    forall j | j in v.open ensures OpenOk(h, s, v.cat, v.open[j], Drafted(more, j)) {
      if j == k { OpenRewritten(h, s, w.cat, v.cat, w.open[k], v.open[k], Drafted(ev, k), Drafted(more, k)); }
      else { OpenUnchanged(h, s, w.cat, v.cat, w.open[j], w.open[k].id, Drafted(ev, j)); }
    }
  }

  /** Open artifacts are not indexed, and the committed ones are. */
  lemma DonesStill(h: Bytes -> Digest, s: State, w: State, v: State, done: seq<Draft>)
    requires Dones(h, s, w, done) && v.indexed == w.indexed && w.indexed <= w.artifacts.Keys
    requires forall id :: id in w.indexed ==> id in v.artifacts && v.artifacts[id] == w.artifacts[id]
    ensures Dones(h, s, v, done)
  {
    hide DoneOk, CommittedIds;
    forall i | 0 <= i < |done| ensures DoneOk(h, v, done[i]) { DoneStill(h, w, v, done[i]); }
  }

  lemma OpenFacts(h: Bytes -> Digest, s: State, w: World, ev: Run, k: nat)
    requires Opens(h, s, w, ev) && k in w.open
    ensures var id := w.open[k].id; id in w.cat.artifacts && id !in w.cat.indexed && id !in s.artifacts
    ensures Drafted(ev, k).Some? && w.open[k].bytes == |Drafted(ev, k).value.request.content|
    ensures Describes(h, Drafted(ev, k).value, w.cat.artifacts[w.open[k].id])
    ensures w.cat.artifacts[w.open[k].id].lifecycle == Drafted(ev, k).value.stage
    ensures w.open[k].id == IdFor(h, Drafted(ev, k).value.request.descriptor)
  {
    hide Describes, IdFor;
    assert OpenOk(h, s, w.cat, w.open[k], Drafted(ev, k));
  }

  lemma RewriteKeeps(h: Bytes -> Digest, s: State, w: World, v: World, ev: Run, more: Run, k: nat, d: Descriptor)
    requires Kept(h, s, w, ev) && Rewrites(h, w, v, ev, more, k, d)
    ensures Kept(h, s, v, more)
  {
    hide Valid, Describes, IdFor, Drafted, Committed, Opens, Dones, Known;
    RewriteOpens(h, s, w, v, ev, more, k, d);
    OpenFacts(h, s, w, ev, k);
    DescribedId(h, Drafted(more, k).value, d);
    DonesStill(h, s, w.cat, v.cat, Committed(ev));
    forall id ensures Known(s, v, id) { KnownStill(s, w, v, id); }
  }

  lemma KnownStill(s: State, w: World, v: World, id: Id)
    requires Known(s, w, id) && v.open.Keys == w.open.Keys && forall k :: k in w.open ==> v.open[k].id == w.open[k].id
    requires v.cat.artifacts.Keys == w.cat.artifacts.Keys && v.cat.indexed == w.cat.indexed
    ensures Known(s, v, id)
  {
    if id in w.cat.artifacts && id !in s.artifacts && id !in w.cat.indexed {
      var k :| k in w.open && w.open[k].id == id;
      assert k in v.open && v.open[k].id == id;
    }
  }

  lemma DescribedId(h: Bytes -> Digest, x: Draft, d: Descriptor)
    requires Describes(h, x, d)
    ensures d.id == IdFor(h, x.request.descriptor)
  {
  }

  lemma ReserveAsEffect(s: State, d: Descriptor, bytes: nat)
    requires ReserveAs(s, d, bytes).0.Returned?
    ensures var (r, t) := ReserveAs(s, d, bytes);
      && r.value == d.id && d.id !in s.artifacts
      && t.artifacts == s.artifacts[d.id := d.(lifecycle := BUILDING)] && t.indexed == s.indexed && t.graph == s.graph
      && t.counters == s.counters.(buildReservations := s.counters.buildReservations + 1,
                                   temporaryBytes := s.counters.temporaryBytes + bytes)
  {
  }

  lemma ReserveEffect(h: Bytes -> Digest, s: State, req: PublishRequest)
    requires Reserve(h, s, req).0.Returned?
    ensures var (r, t) := Reserve(h, s, req); var id := IdFor(h, req.descriptor);
      && r.value == id && id !in s.artifacts
      && t.artifacts == s.artifacts[id := req.descriptor.(id := id, lifecycle := BUILDING)]
      && t.indexed == s.indexed && t.graph == s.graph
      && t.counters == s.counters.(buildReservations := s.counters.buildReservations + 1,
                                   temporaryBytes := s.counters.temporaryBytes + |req.content|)
  {
    hide DerivationBytes, IdOfDigest, ReserveAs, TextFits;
    var g := req.descriptor.generation;
    var next := if g != 0 && g >= s.nextGeneration then NextGeneration(g) else Returned(s.nextGeneration);
    ReserveAsEffect(s.(nextGeneration := next.value), req.descriptor.(id := IdFor(h, req.descriptor)), |req.content|);
  }

  lemma BeginOpens(h: Bytes -> Digest, s: State, w: World, v: World, ev: Run, more: Run, k: nat)
    requires Opens(h, s, w, ev) && OneStep(ev, more, k) && k !in w.open && k in v.open && v.open == w.open[k := v.open[k]]
    requires v.open[k].id !in w.cat.artifacts && OpenOk(h, s, v.cat, v.open[k], Drafted(more, k))
    requires v.open[k].id in v.cat.artifacts && v.cat.indexed == w.cat.indexed
    requires v.cat.artifacts == w.cat.artifacts[v.open[k].id := v.cat.artifacts[v.open[k].id]]
    ensures Opens(h, s, v, more)
  {
    hide IdFor, Drafted, Committed, OpenOk;
    forall j | j in w.open ensures w.open[j].id != v.open[k].id { OpenFacts(h, s, w, ev, j); }
    forall j | j in v.open ensures OpenOk(h, s, v.cat, v.open[j], Drafted(more, j)) {
      if j != k { OpenUnchanged(h, s, w.cat, v.cat, w.open[j], v.open[k].id, Drafted(ev, j)); }
    }
  }

  lemma BeginKeeps(h: Bytes -> Digest, s: State, w: World, ev: Run, k: nat, req: PublishRequest)
    requires Kept(h, s, w, ev) && k !in w.open && Reserve(h, w.cat, req).0.Returned?
    ensures var (r, t) := Reserve(h, w.cat, req);
      Kept(h, s, World(t, w.open[k := Tx(r.value, |req.content|, None)]), ev + [(k, Begin(req))])
  {
    hide Valid, Reserve, IdFor, Drafted, Committed, Opens, Dones, Known;
    ReserveEffect(h, w.cat, req);
    StepDrafts(ev, k, Begin(req));
    var more := ev + [(k, Begin(req))];
    var (r, t) := Reserve(h, w.cat, req);
    var v := World(t, w.open[k := Tx(r.value, |req.content|, None)]);
    assert Committed(ev) + [] == Committed(ev);
    BeginOpens(h, s, w, v, ev, more, k);
    DonesStill(h, s, w.cat, v.cat, Committed(ev));
    forall id ensures Known(s, v, id) { KnownMore(s, w, v, k, id); }
  }

  lemma KnownMore(s: State, w: World, v: World, k: nat, id: Id)
    requires Known(s, w, id) && k !in w.open && k in v.open && v.open == w.open[k := v.open[k]]
    requires v.cat.artifacts.Keys == w.cat.artifacts.Keys + {v.open[k].id} && v.cat.indexed == w.cat.indexed
    ensures Known(s, v, id)
  {
    if id == v.open[k].id {
    } else if j :| j in w.open && w.open[j].id == id {
      assert j in v.open && v.open[j].id == id;
    }
  }

  /** One transaction less: its artifact is indexed, or gone. */
  lemma KnownLess(s: State, w: World, v: World, k: nat, id: Id)
    requires Known(s, w, id) && k in w.open && v.open == w.open - {k} && v.cat.artifacts.Keys <= w.cat.artifacts.Keys
    requires w.cat.indexed <= v.cat.indexed && (w.open[k].id in v.cat.indexed || w.open[k].id !in v.cat.artifacts)
    ensures Known(s, v, id)
  {
    if j :| j in w.open && w.open[j].id == id {
      if j != k { assert j in v.open && v.open[j].id == id; }
    }
  }

  lemma CloseOpens(h: Bytes -> Digest, s: State, w: World, v: World, ev: Run, more: Run, k: nat)
    requires Opens(h, s, w, ev) && k in w.open && v.open == w.open - {k}
    requires forall j: nat :: j != k ==> Drafted(more, j) == Drafted(ev, j)
    requires v.cat.indexed <= w.cat.indexed + {w.open[k].id}
    requires forall id :: id in w.cat.artifacts && id != w.open[k].id ==> id in v.cat.artifacts && v.cat.artifacts[id] == w.cat.artifacts[id]
    ensures Opens(h, s, v, more)
  {
    hide IdFor, Drafted, OpenOk;
    forall j | j in v.open ensures OpenOk(h, s, v.cat, v.open[j], Drafted(more, j)) {
      OpenFacts(h, s, w, ev, j);
      OpenStill(h, s, w.cat, v.cat, w.open[j], Drafted(ev, j));
    }
  }

  lemma CommitEffect(s: State, id: Id, bytes: nat, a: Authority)
    requires Commit(s, id, bytes, a).0.Returned?
    ensures id in s.artifacts
    ensures var t := Commit(s, id, bytes, a).1;
      && t.artifacts == s.artifacts[id := s.artifacts[id].(lifecycle := PUBLISHED)]
      && t.indexed == s.indexed + {id} && t.graph == s.graph
  {
    hide Release, CommitCharge;
  }

  lemma DescribedMoved(h: Bytes -> Digest, x: Draft, d: Descriptor)
    requires Describes(h, x, d)
    ensures Describes(h, x, d.(lifecycle := PUBLISHED)) && d.id == IdFor(h, x.request.descriptor)
  {
  }

  lemma FinishKeeps(h: Bytes -> Digest, s: State, w: World, ev: Run, k: nat, a: Authority)
    requires Kept(h, s, w, ev) && k in w.open && Commit(w.cat, w.open[k].id, w.open[k].bytes, a).0.Returned?
    ensures Kept(h, s, World(Commit(w.cat, w.open[k].id, w.open[k].bytes, a).1, w.open - {k}), ev + [(k, Finish(a))])
  {
    hide Valid, Commit, IdFor, Drafted, Committed, Describes, Opens, Dones, Known;
    var tx := w.open[k];
    CommitEffect(w.cat, tx.id, tx.bytes, a);
    StepDrafts(ev, k, Finish(a));
    OpenFacts(h, s, w, ev, k);
    var more, t := ev + [(k, Finish(a))], Commit(w.cat, tx.id, tx.bytes, a).1;
    var v, x := World(t, w.open - {k}), Drafted(ev, k).value;
    DescribedMoved(h, x, w.cat.artifacts[tx.id]);
    CloseOpens(h, s, w, v, ev, more, k);
    FinishDones(h, s, w.cat, t, Committed(ev), x);
    forall id ensures Known(s, v, id) { KnownLess(s, w, v, k, id); }
  }

  lemma FinishDones(h: Bytes -> Digest, s: State, w: State, v: State, done: seq<Draft>, x: Draft)
    requires Dones(h, s, w, done) && DoneOk(h, v, x) && w.indexed <= w.artifacts.Keys
    requires v.indexed == w.indexed + {IdFor(h, x.request.descriptor)}
    requires forall id :: id in w.indexed ==> id in v.artifacts && v.artifacts[id] == w.artifacts[id]
    ensures Dones(h, s, v, done + [x])
  {
    hide DoneOk, CommittedIds, IdFor;
    forall i | 0 <= i < |done| ensures DoneOk(h, v, done[i]) { DoneStill(h, w, v, done[i]); }
    MoreIds(h, done, x);
  }

  lemma MoreIds(h: Bytes -> Digest, done: seq<Draft>, x: Draft)
    ensures CommittedIds(h, done + [x]) == CommittedIds(h, done) + {IdFor(h, x.request.descriptor)}
  {
    hide IdFor;
    forall id | id in CommittedIds(h, done) + {IdFor(h, x.request.descriptor)} ensures id in CommittedIds(h, done + [x]) {
      if id in CommittedIds(h, done) {
        var i :| 0 <= i < |done| && IdFor(h, done[i].request.descriptor) == id;
        assert (done + [x])[i] == done[i];
      } else {
        assert (done + [x])[|done|] == x;
      }
    }
  }

  lemma AbortEffect(s: State, id: Id, bytes: nat)
    requires Abort(s, id, bytes).0.Returned?
    ensures var t := Abort(s, id, bytes).1;
      && t.artifacts == s.artifacts - {id} && t.indexed == s.indexed && t.graph == s.graph
      && t.counters == s.counters.(buildReservations := s.counters.buildReservations - 1,
                                   temporaryBytes := s.counters.temporaryBytes - bytes)
  {
    hide Released;
  }

  lemma CancelKeeps(h: Bytes -> Digest, s: State, w: World, ev: Run, k: nat)
    requires Kept(h, s, w, ev) && k in w.open && Abort(w.cat, w.open[k].id, w.open[k].bytes).0.Returned?
    ensures Kept(h, s, World(Abort(w.cat, w.open[k].id, w.open[k].bytes).1, w.open - {k}), ev + [(k, Cancel)])
  {
    hide Valid, Abort, IdFor, Drafted, Committed, Describes, Opens, Dones, Known;
    var tx := w.open[k];
    AbortEffect(w.cat, tx.id, tx.bytes);
    StepDrafts(ev, k, Cancel);
    OpenFacts(h, s, w, ev, k);
    var more, t := ev + [(k, Cancel)], Abort(w.cat, tx.id, tx.bytes).1;
    var v := World(t, w.open - {k});
    assert Committed(ev) + [] == Committed(ev);
    CloseOpens(h, s, w, v, ev, more, k);
    DonesStill(h, s, w.cat, t, Committed(ev));
    forall id ensures Known(s, v, id) { KnownLess(s, w, v, k, id); }
  }

  lemma KeptFacts(h: Bytes -> Digest, s: State, w: World, ev: Run, k: nat)
    requires Kept(h, s, w, ev) && k in w.open
    ensures var id := w.open[k].id; id in w.cat.artifacts && id !in w.cat.indexed && id !in s.artifacts
    ensures Drafted(ev, k).Some? && w.open[k].bytes == |Drafted(ev, k).value.request.content|
    ensures Describes(h, Drafted(ev, k).value, w.cat.artifacts[w.open[k].id])
    ensures w.cat.artifacts[w.open[k].id].lifecycle == Drafted(ev, k).value.stage
    ensures w.open[k].id == IdFor(h, Drafted(ev, k).value.request.descriptor)
  {
    hide Describes, IdFor, Opens, Dones, Known, WellFormed, Drafted;
    OpenFacts(h, s, w, ev, k);
  }

  lemma ActKeepsOpen(h: Bytes -> Digest, s: State, w: World, ev: Run, k: nat, e: Event)
    requires ValidWorld(w) && Kept(h, s, w, ev) && Disciplined(w, k, e) && Act(h, w, k, e).0.Returned?
    ensures Kept(h, s, Act(h, w, k, e).1, ev + [(k, e)])
  {
    hide Valid, Reserve, Commit, Abort, LinkLate, Kept, Drafted, Committed, IdFor, Stored, DigestInput;
    StepDrafts(ev, k, e);
    assert Committed(ev) + [] == Committed(ev);
    match e
    case Begin(req) => BeginKeeps(h, s, w, ev, k, req);
    case Fill(content, a) =>
      KeptFacts(h, s, w, ev, k);
      RewriteKeeps(h, s, w, Act(h, w, k, e).1, ev, ev + [(k, e)], k,
                   w.cat.artifacts[w.open[k].id].(contentDigest := h(content), lifecycle := VALIDATING));
    case Check(report, a) =>
      KeptFacts(h, s, w, ev, k);
      var l := Act(h, w, k, e).1.cat.artifacts[w.open[k].id].lifecycle;
      RewriteKeeps(h, s, w, Act(h, w, k, e).1, ev, ev + [(k, e)], k,
                   w.cat.artifacts[w.open[k].id].(validation := report.state, lifecycle := l));
    case Verify(a) =>
      KeptFacts(h, s, w, ev, k);
      RewriteKeeps(h, s, w, Act(h, w, k, e).1, ev, ev + [(k, e)], k, Act(h, w, k, e).1.cat.artifacts[w.open[k].id]);
    case Finish(a) => FinishKeeps(h, s, w, ev, k, a);
    case Cancel => CancelKeeps(h, s, w, ev, k);
  }

  lemma LastStep(h: Bytes -> Digest, s: State, ev: Run)
    requires ValidWorld(World(s, map[])) && Orderly(h, World(s, map[]), ev) && ev != []
    ensures var w, init := World(s, map[]), ev[..|ev| - 1]; var (k, e) := ev[|ev| - 1]; var u := AfterSteps(h, w, init);
      && Orderly(h, w, init) && Disciplined(u, k, e) && Act(h, u, k, e).0.Returned?
      && AfterSteps(h, w, ev) == Act(h, u, k, e).1 && ev == init + [(k, e)]
  {
    hide ValidWorld, Act, Disciplined;
  }

  lemma NothingKept(h: Bytes -> Digest, s: State)
    requires WellFormed(s)
    ensures Kept(h, s, World(s, map[]), [])
  {
    hide Valid;
    assert CommittedIds(h, []) == {};
  }

  lemma {:induction false} RunKeepsOpen(h: Bytes -> Digest, s: State, ev: Run)
    requires WellFormed(s) && ValidWorld(World(s, map[])) && Orderly(h, World(s, map[]), ev)
    ensures Kept(h, s, AfterSteps(h, World(s, map[]), ev), ev)
  {
    if ev == [] {
      NothingKept(h, s);
    } else {
      hide Kept, Act, Disciplined, ValidWorld, WellFormed, Committed, Drafted, Orderly, AfterSteps;
      LastStep(h, s, ev);
      var init := ev[..|ev| - 1];
      var (k, e) := ev[|ev| - 1];
      RunKeepsOpen(h, s, init);
      ActKeepsOpen(h, s, AfterSteps(h, World(s, map[]), init), init, k, e);
    }
  }

  // ---- the counters ---------------------------------------------------------------------

  /** What the counters of `base` become when `done` has been committed; the two counters of
      reservations are left to `ReservationsConserved`. */
  predicate Charged(c: Counters, base: Counters, done: seq<Draft>) {
    && c.logicalArtifacts == base.logicalArtifacts + |done|
    && c.activeReferences == base.activeReferences + |done|
    && c.physicalBacking == base.physicalBacking + |done|
    && c.logicalBytes == base.logicalBytes + TotalSize(done)
    && c.physicalBytes == base.physicalBytes + TotalSize(done)
    && c.dedupBytes == base.dedupBytes
    && c.evictions == base.evictions && c.invalidations == base.invalidations && c.supersessions == base.supersessions
  }

  lemma CommitCharges(s: State, id: Id, bytes: nat, a: Authority)
    requires Commit(s, id, bytes, a).0.Returned?
    ensures id in s.artifacts
    ensures var c, t := s.counters, Commit(s, id, bytes, a).1.counters;
      var size := if s.artifacts[id].sizeBytes != 0 then ToI64(s.artifacts[id].sizeBytes) else bytes;
      && t.logicalArtifacts == c.logicalArtifacts + 1 && t.activeReferences == c.activeReferences + 1
      && t.physicalBacking == c.physicalBacking + 1 && t.logicalBytes == c.logicalBytes + size
      && t.physicalBytes == c.physicalBytes + size && t.dedupBytes == c.dedupBytes
      && t.evictions == c.evictions && t.invalidations == c.invalidations && t.supersessions == c.supersessions
  {
    hide ToI64;
  }

  lemma ActCharges(h: Bytes -> Digest, s: State, w: World, base: Counters, ev: Run, k: nat, e: Event)
    requires ValidWorld(w) && Kept(h, s, w, ev) && Disciplined(w, k, e) && Act(h, w, k, e).0.Returned?
    requires Charged(w.cat.counters, base, Committed(ev))
    ensures Charged(Act(h, w, k, e).1.cat.counters, base, Committed(ev + [(k, e)]))
  {
    hide Valid, Reserve, Commit, Abort, LinkLate, Kept, Drafted, Committed, IdFor, Stored, DigestInput,
      TotalSize;
    StepDrafts(ev, k, e);
    var done := Committed(ev);
    assert done + [] == done;
    match e
    case Begin(req) => ReserveEffect(h, w.cat, req);
    case Fill(content, a) =>
    case Check(report, a) =>
    case Verify(a) =>
    case Finish(a) =>
      KeptFacts(h, s, w, ev, k);
      CommitCharges(w.cat, w.open[k].id, w.open[k].bytes, a);
      MoreSize(done, Drafted(ev, k).value);
    case Cancel => AbortEffect(w.cat, w.open[k].id, w.open[k].bytes);
  }

  lemma MoreSize(done: seq<Draft>, x: Draft)
    ensures TotalSize(done + [x]) == TotalSize(done) + SizeOf(x.request)
  {
    assert (done + [x])[..|done|] == done;
  }

  function Finishes(ev: Run): Run {
    if ev == [] then [] else Finishes(ev[..|ev| - 1]) + if ev[|ev| - 1].1.Finish? then ev[|ev| - 1..] else []
  }

  /** The commits of a run are its `Finish` steps. */
  lemma {:induction false} CommitsAreFinishes(h: Bytes -> Digest, s: State, ev: Run)
    requires WellFormed(s) && ValidWorld(World(s, map[])) && Orderly(h, World(s, map[]), ev)
    ensures |Committed(ev)| == |Finishes(ev)|
  {
    if ev == [] {
    } else {
      hide Act, Kept, ValidWorld, WellFormed, Drafted, Orderly, AfterSteps;
      LastStep(h, s, ev);
      var init := ev[..|ev| - 1];
      var (k, e) := ev[|ev| - 1];
      CommitsAreFinishes(h, s, init);
      RunKeepsOpen(h, s, init);
      if e.Finish? {
        assert Disciplined(AfterSteps(h, World(s, map[]), init), k, e);
        KeptFacts(h, s, AfterSteps(h, World(s, map[]), init), init, k);
      }
    }
  }

  lemma {:induction false} RunCharges(h: Bytes -> Digest, s: State, ev: Run)
    requires WellFormed(s) && ValidWorld(World(s, map[])) && Orderly(h, World(s, map[]), ev)
    ensures Charged(AfterSteps(h, World(s, map[]), ev).cat.counters, s.counters, Committed(ev))
  {
    if ev == [] {
    } else {
      hide Kept, Act, Disciplined, ValidWorld, WellFormed, Charged, Committed, Orderly, AfterSteps;
      LastStep(h, s, ev);
      var init := ev[..|ev| - 1];
      var (k, e) := ev[|ev| - 1];
      RunCharges(h, s, init);
      RunKeepsOpen(h, s, init);
      ActCharges(h, s, AfterSteps(h, World(s, map[]), init), s.counters, init, k, e);
    }
  }

  /** After any orderly interleaving: the artifacts, the active references and the backing
      contents have each grown by the number of commits, the logical and the physical bytes by
      the sum of the committed sizes, and no other counter has moved but the two of the
      reservations. */
  lemma CommitsCharged(h: Bytes -> Digest, s: State, ev: Run)
    requires WellFormed(s) && ValidWorld(World(s, map[])) && Orderly(h, World(s, map[]), ev)
    ensures |Committed(ev)| == |Finishes(ev)|
    ensures var c, done := AfterSteps(h, World(s, map[]), ev).cat.counters, Committed(ev);
      && c.logicalArtifacts == s.counters.logicalArtifacts + |done|
      && c.activeReferences == s.counters.activeReferences + |done|
      && c.physicalBacking == s.counters.physicalBacking + |done|
      && c.logicalBytes == s.counters.logicalBytes + TotalSize(done)
      && c.physicalBytes == s.counters.physicalBytes + TotalSize(done)
      && c.dedupBytes == s.counters.dedupBytes && c.evictions == s.counters.evictions
      && c.invalidations == s.counters.invalidations && c.supersessions == s.counters.supersessions
  {
    hide WellFormed, ValidWorld, Orderly, AfterSteps, TotalSize, Committed, Finishes;
    CommitsAreFinishes(h, s, ev);
    RunCharges(h, s, ev);
  }

  // ---- what is found --------------------------------------------------------------------

  /** After any orderly interleaving, the artifact of every committed transaction is catalogued
      as its steps describe it, PUBLISHED, and found under each of its attributes; the indexes
      have gained the committed artifacts alone, everything that was catalogued before is as it
      was, and whatever else is catalogued belongs to an open transaction. */
  lemma CommittedAreFound(h: Bytes -> Digest, s: State, ev: Run)
    requires WellFormed(s) && ValidWorld(World(s, map[])) && Orderly(h, World(s, map[]), ev)
    ensures var w := AfterSteps(h, World(s, map[]), ev);
      && WellFormed(w.cat)
      && (forall i :: 0 <= i < |Committed(ev)| ==> FoundAsDescribed(h, w.cat, Committed(ev)[i]))
      && (forall k :: k in w.open ==> OpenAsDescribed(h, w, k, Drafted(ev, k)))
      && w.cat.indexed == s.indexed + CommittedIds(h, Committed(ev))
      && (forall id :: id in s.artifacts ==> id in w.cat.artifacts && w.cat.artifacts[id] == s.artifacts[id])
      && (forall id :: Known(s, w, id))
  {
    hide Act, Disciplined, WellFormed, CommittedIds, AfterSteps, Orderly, Committed, Drafted, Lookup;
    RunKeepsOpen(h, s, ev);
    var w := AfterSteps(h, World(s, map[]), ev);
    forall i | 0 <= i < |Committed(ev)| ensures FoundAsDescribed(h, w.cat, Committed(ev)[i]) {
      assert DoneOk(h, w.cat, Committed(ev)[i]);
      IndexedIsFound(w.cat, IdFor(h, Committed(ev)[i].request.descriptor));
    }
    forall k | k in w.open ensures OpenAsDescribed(h, w, k, Drafted(ev, k)) { KeptFacts(h, s, w, ev, k); }
  }

  /** The artifact of an open transaction is as far as its last step took it, and not indexed. */
  predicate OpenAsDescribed(h: Bytes -> Digest, w: World, k: nat, x: Option<Draft>)
    requires k in w.open
  {
    var id := w.open[k].id;
    && x.Some? && id == IdFor(h, x.value.request.descriptor) && id in w.cat.artifacts && id !in w.cat.indexed
    && Describes(h, x.value, w.cat.artifacts[id]) && w.cat.artifacts[id].lifecycle == x.value.stage
  }

  ghost predicate FoundAsDescribed(h: Bytes -> Digest, s: State, x: Draft)
    requires WellFormed(s)
  {
    var id := IdFor(h, x.request.descriptor);
    && id in s.artifacts && Describes(h, x, s.artifacts[id]) && s.artifacts[id].lifecycle == PUBLISHED
    && forall k :: HasKey(s.artifacts[id], k) ==> id in Lookup(s, k)
  }

  lemma IndexedIsFound(s: State, id: Id)
    requires WellFormed(s) && id in s.indexed
    ensures id in s.artifacts && forall k :: HasKey(s.artifacts[id], k) ==> id in Lookup(s, k)
  {
    hide HasKey, Valid;
    forall k | HasKey(s.artifacts[id], k) ensures id in Lookup(s, k) {
      assert id in Hits(s, k);
    }
  }

  // ---- what is linked -------------------------------------------------------------------

  /** The edges that transactions for artifact `x` have verified, in order. */
  function Verified(h: Bytes -> Digest, ev: Run, x: Id): seq<DependencyRef> {
    if ev == [] then []
    else
      var init := ev[..|ev| - 1];
      var (k, e) := ev[|ev| - 1];
      var of := Drafted(init, k);
      Verified(h, init, x)
      + if e.Verify? && of.Some? && IdFor(h, of.value.request.descriptor) == x then of.value.request.descriptor.dependencies
        else []
  }

  lemma LinkLateAdds(g: Graph, id: Id, deps: seq<DependencyRef>, x: Id)
    requires Valid(g) && LinkLate(g, id, deps).0.Returned?
    ensures Direct(LinkLate(g, id, deps).1, x) == if x == id then Direct(g, x) + deps else Direct(g, x)
  {
    hide Valid, AddNode, LinkAll, Direct, Targets;
    AddNodeKeepsValid(g, id);
    if id !in g.nodes { CatalogRuns.NodeEffect(g, id); }
    var k := if id in g.nodes then g else AddNode(g, id).1;
    CatalogRuns.LinkAllEffect(k, id, deps);
    assert Direct(k, x) == Direct(g, x);
  }

  lemma VerifyEffect(h: Bytes -> Digest, s: State, id: Id, a: Authority)
    requires Valid(s.graph) && VerifyDependencies(h, s, id, a).0.Returned?
    ensures id in s.artifacts
    ensures var t := VerifyDependencies(h, s, id, a).1;
      && Valid(t.graph) && LinkLate(s.graph, id, s.artifacts[id].dependencies).0.Returned?
      && LinkLate(s.graph, id, s.artifacts[id].dependencies).1 == t.graph
      && t.artifacts == s.artifacts[id := s.artifacts[id].(dependencyDigest := h(DigestInput(t.graph, id)))]
  {
    hide Valid, LinkLate, DigestInput;
  }

  lemma DescribedDependencies(h: Bytes -> Digest, x: Draft, d: Descriptor)
    requires Describes(h, x, d)
    ensures d.dependencies == x.request.descriptor.dependencies
  {
  }

  lemma ActLinks(h: Bytes -> Digest, s: State, w: World, ev: Run, k: nat, e: Event, x: Id)
    requires ValidWorld(w) && Kept(h, s, w, ev) && Disciplined(w, k, e) && Act(h, w, k, e).0.Returned?
    requires Direct(w.cat.graph, x) == Direct(s.graph, x) + Verified(h, ev, x)
    ensures Direct(Act(h, w, k, e).1.cat.graph, x) == Direct(s.graph, x) + Verified(h, ev + [(k, e)], x)
  {
    hide Valid, Reserve, Commit, Abort, LinkLate, Kept, Drafted, IdFor, Stored, DigestInput, Direct, VerifyDependencies,
      Describes;
    assert (ev + [(k, e)])[..|ev|] == ev;
    var before := Verified(h, ev, x);
    assert before + [] == before;
    match e
    case Begin(req) => ReserveEffect(h, w.cat, req);
    case Fill(content, a) =>
    case Check(report, a) =>
    case Verify(a) =>
      KeptFacts(h, s, w, ev, k);
      var id := w.open[k].id;
      VerifyEffect(h, w.cat, id, a);
      DescribedDependencies(h, Drafted(ev, k).value, w.cat.artifacts[id]);
      LinkLateAdds(w.cat.graph, id, w.cat.artifacts[id].dependencies, x);
      assert Direct(s.graph, x) + before + w.cat.artifacts[id].dependencies
          == Direct(s.graph, x) + (before + w.cat.artifacts[id].dependencies);
    case Finish(a) => CommitEffect(w.cat, w.open[k].id, w.open[k].bytes, a);
    case Cancel => AbortEffect(w.cat, w.open[k].id, w.open[k].bytes);
  }

  /** After any orderly interleaving every node has the edges it had before, and after them those
      that were verified for it; an abort takes none back. */
  lemma {:induction false} VerifiedEdgesStay(h: Bytes -> Digest, s: State, ev: Run, x: Id)
    requires WellFormed(s) && ValidWorld(World(s, map[])) && Orderly(h, World(s, map[]), ev)
    ensures Direct(AfterSteps(h, World(s, map[]), ev).cat.graph, x) == Direct(s.graph, x) + Verified(h, ev, x)
  {
    hide Direct;
    if ev == [] {
      assert Direct(s.graph, x) + [] == Direct(s.graph, x);
    } else {
      hide Kept, Act, Disciplined, ValidWorld, WellFormed, Orderly, AfterSteps, Verified;
      LastStep(h, s, ev);
      var init := ev[..|ev| - 1];
      var (k, e) := ev[|ev| - 1];
      VerifiedEdgesStay(h, s, init, x);
      RunKeepsOpen(h, s, init);
      ActLinks(h, s, AfterSteps(h, World(s, map[]), init), init, k, e, x);
    }
  }

  /** Verifying signs the artifact with the digest of its dependencies in the graph as it then is. */
  lemma VerifyingSigns(h: Bytes -> Digest, w: World, k: nat, a: Authority)
    requires ValidWorld(w) && k in w.open && Act(h, w, k, Verify(a)).0.Returned?
    ensures var v, id := Act(h, w, k, Verify(a)).1, w.open[k].id;
      && v.open == w.open && Valid(v.cat.graph) && id in w.cat.artifacts
      && v.cat.artifacts == w.cat.artifacts[id := w.cat.artifacts[id].(dependencyDigest := h(DigestInput(v.cat.graph, id)))]
  {
    hide Valid, VerifyDependencies, DigestInput;
    VerifyEffect(h, w.cat, w.open[k].id, a);
  }
}
