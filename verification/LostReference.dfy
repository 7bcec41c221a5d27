/** Two transactions, one of which loses its content to the abort of the other. */
module LostReference {
  import opened Types
  import opened Accounting
  import opened GraphModel
  import opened Derivation
  import opened CatalogModel
  import opened CatalogEffects
  import opened CatalogRuns
  import opened TransactionModel
  import opened TransactionRuns
  import opened TransactionRemoval
  import opened FailingRuns

  const X: Bytes := [7]

  /** An artifact that claims the digest `claim`. */
  function Claiming(id: Id, claim: Digest): PublishRequest {
    PublishRequest(Plain(id, 0, 1, []).(contentDigest := claim), X, ME)
  }

  /** The first transaction reserves under the digest of X and produces nothing; the second
      produces X; the first is aborted; the second is committed. */
  function Interleaving(h: Bytes -> Digest): Run {
    [(0, Begin(Claiming(1, h(X)))), (1, Begin(Claiming(2, 0))), (1, Fill(X, ME)), (0, Cancel), (1, Finish(ME))]
  }

  function Building(id: Id, claim: Digest): Descriptor {
    Claiming(id, claim).descriptor.(lifecycle := BUILDING)
  }

  function Reservations(n: int, bytes: int): Counters {
    NO_COUNTS.(buildReservations := n, temporaryBytes := bytes)
  }

  /** The worlds the run goes through. */
  function Begun(h: Bytes -> Digest): World {
    World(NEW_CATALOG.(nextGeneration := 2, artifacts := map[1 := Building(1, h(X))], counters := Reservations(1, 1)),
          map[0 := Tx(1, 1, None)])
  }

  function BothBegun(h: Bytes -> Digest): World {
    World(NEW_CATALOG.(nextGeneration := 2, artifacts := map[1 := Building(1, h(X)), 2 := Building(2, 0)],
                       counters := Reservations(2, 2)),
          map[0 := Tx(1, 1, None), 1 := Tx(2, 1, None)])
  }

  function Produced(h: Bytes -> Digest): World {
    World(NEW_CATALOG.(nextGeneration := 2,
                       artifacts := map[1 := Building(1, h(X)),
                                        2 := Building(2, h(X)).(lifecycle := VALIDATING)],
                       store := map[h(X) := Content(X, 1)], counters := Reservations(2, 2)),
          map[0 := Tx(1, 1, None), 1 := Tx(2, 1, Some(X))])
  }

  function Aborted(h: Bytes -> Digest): World {
    World(NEW_CATALOG.(nextGeneration := 2, artifacts := map[2 := Building(2, h(X)).(lifecycle := VALIDATING)],
                       counters := Reservations(1, 1)),
          map[1 := Tx(2, 1, Some(X))])
  }

  lemma FirstBegins(h: Bytes -> Digest)
    requires ValidWorld(World(NEW_CATALOG, map[]))
    ensures Act(h, World(NEW_CATALOG, map[]), 0, Begin(Claiming(1, h(X)))) == (Returned(()), Begun(h))
  {
  }

  lemma SecondBegins(h: Bytes -> Digest)
    requires ValidWorld(Begun(h))
    ensures Act(h, Begun(h), 1, Begin(Claiming(2, 0))) == (Returned(()), BothBegun(h))
  {
  }

  lemma SecondProduces(h: Bytes -> Digest)
    requires ValidWorld(BothBegun(h))
    ensures Act(h, BothBegun(h), 1, Fill(X, ME)) == (Returned(()), Produced(h))
  {
    var d := Building(2, 0).(contentDigest := h(X), lifecycle := VALIDATING);
    assert BothBegun(h).cat.artifacts[2 := d] == Produced(h).cat.artifacts;
    assert BothBegun(h).open[1 := Tx(2, 1, Some(X))] == Produced(h).open;
  }

  lemma FirstAborts(h: Bytes -> Digest)
    requires ValidWorld(Produced(h))
    ensures Act(h, Produced(h), 0, Cancel) == (Returned(()), Aborted(h))
  {
    assert Produced(h).cat.artifacts - {1} == Aborted(h).cat.artifacts;
    assert Produced(h).open - {0} == Aborted(h).open;
    assert Produced(h).cat.store - {h(X)} == map[];
  }

  lemma SecondCommits(h: Bytes -> Digest)
    requires ValidWorld(Aborted(h))
    ensures var (r, w) := Act(h, Aborted(h), 1, Finish(ME));
      && r.Returned? && w.open == map[] && 2 in w.cat.artifacts && w.cat.artifacts[2].lifecycle == PUBLISHED
      && w.cat.artifacts[2].contentDigest == h(X) && w.cat.store == map[]
  {
    assert Aborted(h).open - {1} == map[];
  }

  lemma OneStepMore(h: Bytes -> Digest, w: World, ev: Run, k: nat, e: Event)
    requires ValidWorld(w) && Orderly(h, w, ev) && Disciplined(AfterSteps(h, w, ev), k, e)
    requires Act(h, AfterSteps(h, w, ev), k, e).0.Returned?
    ensures Orderly(h, w, ev + [(k, e)]) && AfterSteps(h, w, ev + [(k, e)]) == Act(h, AfterSteps(h, w, ev), k, e).1
  {
    hide Act, Disciplined, ValidWorld;
    assert (ev + [(k, e)])[..|ev|] == ev;
  }

  lemma EmptyWorld(h: Bytes -> Digest)
    ensures ValidWorld(World(NEW_CATALOG, map[])) && Orderly(h, World(NEW_CATALOG, map[]), [])
    ensures AfterSteps(h, World(NEW_CATALOG, map[]), []) == World(NEW_CATALOG, map[])
    ensures ValidWorld(Begun(h)) && ValidWorld(BothBegun(h)) && ValidWorld(Produced(h)) && ValidWorld(Aborted(h))
  {
    NewIsWellFormed();
  }

  /** Every transaction keeps its discipline and every step returns; the abort takes the content
      of the other transaction, and what is then committed is a published artifact whose
      content is not stored. */
  lemma PublishedWithoutContent(h: Bytes -> Digest)
    ensures ValidWorld(World(NEW_CATALOG, map[])) && Orderly(h, World(NEW_CATALOG, map[]), Interleaving(h))
    ensures var s := AfterSteps(h, World(NEW_CATALOG, map[]), Interleaving(h)).cat;
      && 2 in s.artifacts && s.artifacts[2].lifecycle == PUBLISHED && s.artifacts[2].contentDigest == h(X)
      && h(X) !in s.store
  {
    hide Act, AfterSteps, Orderly, ValidWorld, Claiming;
    var o, ev := World(NEW_CATALOG, map[]), Interleaving(h);
    EmptyWorld(h);
    FirstBegins(h);
    OneStepMore(h, o, [], 0, ev[0].1);
    assert [] + [ev[0]] == ev[..1];
    SecondBegins(h);
    OneStepMore(h, o, ev[..1], 1, ev[1].1);
    assert ev[..1] + [ev[1]] == ev[..2];
    SecondProduces(h);
    OneStepMore(h, o, ev[..2], 1, ev[2].1);
    assert ev[..2] + [ev[2]] == ev[..3];
    FirstAborts(h);
    OneStepMore(h, o, ev[..3], 0, ev[3].1);
    assert ev[..3] + [ev[3]] == ev[..4];
    SecondCommits(h);
    OneStepMore(h, o, ev[..4], 1, ev[4].1);
    assert ev[..4] + [ev[4]] == ev;
  }
}
