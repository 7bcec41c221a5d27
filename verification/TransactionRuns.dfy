/** Any number of publish transactions, interleaved step by step. */
module TransactionRuns {
  import opened Types
  import opened Collections
  import opened Accounting
  import opened GraphModel
  import opened Derivation
  import opened CatalogModel
  import opened CatalogEffects
  import opened Ledger
  import opened TransactionModel

  /** An open transaction: what it reserved, and the content it produced, if any. */
  datatype Tx = Tx(id: Id, bytes: nat, produced: Option<Bytes>)

  /** A catalog and the transactions open on it. */
  datatype World = World(cat: State, open: map<nat, Tx>)

  datatype Event =
    | Begin(req: PublishRequest) | Fill(content: Bytes, authority: Authority)
    | Check(report: Report, authority: Authority) | Verify(authority: Authority)
    | Finish(authority: Authority) | Cancel

  type Run = seq<(nat, Event)>

  /** One step of transaction `k`. */
  ghost function Act(h: Bytes -> Digest, w: World, k: nat, e: Event): (Outcome<()>, World)
    requires Valid(w.cat.graph)
  {
    if e.Begin? then
      var (r, t) := Reserve(h, w.cat, e.req);
      if r.Threw? then (Threw(r.error), World(t, w.open))
      else (Returned(()), World(t, w.open[k := Tx(r.value, |e.req.content|, None)]))
    else if k !in w.open then (Threw(UnknownArtifact), w)
    else
      var tx := w.open[k];
      match e
      case Fill(content, a) =>
        var (r, t) := Produce(h, w.cat, tx.id, content, a);
        (r, World(t, if r.Threw? then w.open else w.open[k := tx.(bytes := |content|, produced := Some(content))]))
      case Check(report, a) => var (r, t) := ValidatePublish(w.cat, tx.id, report, a); (r, World(t, w.open))
      case Verify(a) => var (r, t) := VerifyDependencies(h, w.cat, tx.id, a); (r, World(t, w.open))
      case Finish(a) =>
        var (r, t) := Commit(w.cat, tx.id, tx.bytes, a);
        (r, World(t, if r.Threw? then w.open else w.open - {k}))
      case Cancel =>
        var (r, t) := Abort(w.cat, tx.id, tx.bytes);
        (r, World(t, if r.Threw? then w.open else w.open - {k}))
  }

  /** A transaction begins once, produces at most once and exactly what it reserved, and acts on
      its own artifact. */
  predicate Disciplined(w: World, k: nat, e: Event) {
    match e
    case Begin(_) => k !in w.open
    case Fill(content, _) => k in w.open && w.open[k].produced.None? && |content| == w.open[k].bytes
    case _ => k in w.open
  }

  ghost predicate ValidWorld(w: World) {
    Valid(w.cat.graph)
  }

  lemma ReserveGraph(h: Bytes -> Digest, s: State, req: PublishRequest)
    ensures Reserve(h, s, req).1.graph == s.graph
  {
    hide DeriveId;
  }

  lemma CommitGraph(s: State, id: Id, bytes: nat, a: Authority)
    ensures Commit(s, id, bytes, a).1.graph == s.graph
  {
    hide Release, CommitCharge;
  }

  lemma AbortGraph(s: State, id: Id, bytes: nat)
    ensures Abort(s, id, bytes).1.graph == s.graph
  {
    hide Release, Released;
  }

  lemma ActKeepsValid(h: Bytes -> Digest, w: World, k: nat, e: Event)
    requires ValidWorld(w)
    ensures ValidWorld(Act(h, w, k, e).1)
  {
    hide Valid, Reserve, Commit, Abort, LinkLate;
    if e.Begin? {
      ReserveGraph(h, w.cat, e.req);
    } else if k in w.open {
      var tx := w.open[k];
      match e
      case Begin(_) =>
      case Fill(_, _) =>
      case Check(_, _) =>
      case Verify(_) =>
      case Finish(a) => CommitGraph(w.cat, tx.id, tx.bytes, a);
      case Cancel => AbortGraph(w.cat, tx.id, tx.bytes);
    }
  }

  ghost function AfterSteps(h: Bytes -> Digest, w: World, ev: Run): (v: World)
    requires ValidWorld(w)
    ensures ValidWorld(v)
  {
    if ev == [] then w
    else
      var u := AfterSteps(h, w, ev[..|ev| - 1]);
      ActKeepsValid(h, u, ev[|ev| - 1].0, ev[|ev| - 1].1);
      Act(h, u, ev[|ev| - 1].0, ev[|ev| - 1].1).1
  }

  /** Every step is disciplined and returns normally. */
  ghost predicate Orderly(h: Bytes -> Digest, w: World, ev: Run)
    requires ValidWorld(w)
  {
    ev == []
    || (Orderly(h, w, ev[..|ev| - 1])
        && var u := AfterSteps(h, w, ev[..|ev| - 1]); var (k, e) := ev[|ev| - 1];
           Disciplined(u, k, e) && Act(h, u, k, e).0.Returned?)
  }

  // ---- reservations ---------------------------------------------------------------------

  function Reserved(open: map<nat, Tx>): map<nat, int> {
    map k | k in open :: open[k].bytes
  }

  /** The reservations and temporary bytes of `c` are those of `base` and of the open
      transactions. */
  ghost predicate Accounted(c: Counters, base: Counters, open: map<nat, Tx>) {
    && c.buildReservations == base.buildReservations + |open|
    && c.temporaryBytes == base.temporaryBytes + Total(Reserved(open))
  }

  lemma OpenOne(open: map<nat, Tx>, k: nat, tx: Tx)
    requires k !in open
    ensures |open[k := tx]| == |open| + 1 && Total(Reserved(open[k := tx])) == Total(Reserved(open)) + tx.bytes
  {
    assert open[k := tx].Keys == open.Keys + {k};
    assert Reserved(open[k := tx]) == Reserved(open)[k := tx.bytes];
    TotalAdd(Reserved(open), k, tx.bytes);
  }

  lemma CloseOne(open: map<nat, Tx>, k: nat)
    requires k in open
    ensures |open - {k}| == |open| - 1 && Total(Reserved(open - {k})) == Total(Reserved(open)) - open[k].bytes
  {
    assert (open - {k}).Keys == open.Keys - {k};
    assert Reserved(open - {k}) == Reserved(open) - {k};
    TotalRemove(Reserved(open), k);
  }

  lemma ChangeOne(open: map<nat, Tx>, k: nat, tx: Tx)
    requires k in open && tx.bytes == open[k].bytes
    ensures |open[k := tx]| == |open| && Reserved(open[k := tx]) == Reserved(open)
  {
    assert open[k := tx].Keys == open.Keys;
  }

  lemma ReserveCounts(h: Bytes -> Digest, s: State, req: PublishRequest)
    requires Reserve(h, s, req).0.Returned?
    ensures var c := Reserve(h, s, req).1.counters;
      && c.buildReservations == s.counters.buildReservations + 1
      && c.temporaryBytes == s.counters.temporaryBytes + |req.content|
  {
    hide DeriveId;
  }

  lemma ReleaseCounts(c: Counters, bytes: nat)
    requires Release(c, bytes).0.Returned?
    ensures Release(c, bytes).1 == c.(buildReservations := c.buildReservations - 1, temporaryBytes := c.temporaryBytes - bytes)
  {
  }

  lemma CommitCounts(s: State, id: Id, bytes: nat, a: Authority)
    requires Commit(s, id, bytes, a).0.Returned?
    ensures var c := Commit(s, id, bytes, a).1.counters;
      c.buildReservations == s.counters.buildReservations - 1 && c.temporaryBytes == s.counters.temporaryBytes - bytes
  {
    hide ToI64;
  }

  lemma ActAccounts(h: Bytes -> Digest, w: World, base: Counters, k: nat, e: Event)
    requires ValidWorld(w) && Accounted(w.cat.counters, base, w.open)
    requires Disciplined(w, k, e) && Act(h, w, k, e).0.Returned?
    ensures Accounted(Act(h, w, k, e).1.cat.counters, base, Act(h, w, k, e).1.open)
  {
    hide Valid, Total, Reserved, Reserve, Commit, LinkLate, Release;
    match e
    case Begin(req) =>
      ReserveCounts(h, w.cat, req);
      OpenOne(w.open, k, Tx(Reserve(h, w.cat, req).0.value, |req.content|, None));
    case Fill(content, a) => ChangeOne(w.open, k, w.open[k].(bytes := |content|, produced := Some(content)));
    case Check(report, a) =>
    case Verify(a) =>
    case Finish(a) =>
      CommitCounts(w.cat, w.open[k].id, w.open[k].bytes, a);
      CloseOne(w.open, k);
    case Cancel =>
      ReleaseCounts(w.cat.counters, w.open[k].bytes);
      CloseOne(w.open, k);
  }

  /** At every point of every orderly run, the counter of build reservations has grown by the
      number of open transactions, and the temporary publication bytes by the sum of what they
      reserved. */
  lemma {:induction false} ReservationsConserved(h: Bytes -> Digest, s: State, ev: Run)
    requires ValidWorld(World(s, map[])) && Orderly(h, World(s, map[]), ev)
    ensures var w := AfterSteps(h, World(s, map[]), ev);
      && w.cat.counters.buildReservations == s.counters.buildReservations + |w.open|
      && w.cat.counters.temporaryBytes == s.counters.temporaryBytes + Total(Reserved(w.open))
  {
    hide Act, Disciplined, ValidWorld;
    if ev != [] {
      ReservationsConserved(h, s, ev[..|ev| - 1]);
      ActAccounts(h, AfterSteps(h, World(s, map[]), ev[..|ev| - 1]), s.counters, ev[|ev| - 1].0, ev[|ev| - 1].1);
    } else {
    }
  }

}
