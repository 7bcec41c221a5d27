/** The generations of publications that overlap. */
module OverlappingPublications {
  import opened Types
  import opened Sorting
  import opened GraphModel
  import opened CatalogModel
  import opened Invalidation
  import opened CatalogEffects
  import opened Coordination
  import Collections
  import Lifecycle

  // ---- no call changes the generation of an artifact ------------------------------------

  /** Every artifact is still there, with its generation. */
  ghost predicate KeepsGenerations(s: State, t: State) {
    forall x :: x in s.artifacts ==> x in t.artifacts && t.artifacts[x].generation == s.artifacts[x].generation
  }

  lemma KeptTwice(s: State, t: State, u: State)
    requires KeepsGenerations(s, t) && KeepsGenerations(t, u)
    ensures KeepsGenerations(s, u)
  {
  }

  lemma MoveKept(s: State, id: Id, d: Descriptor, to: LifecycleState)
    requires id in s.artifacts && d.generation == s.artifacts[id].generation
    ensures KeepsGenerations(s, Move(s, id, d, to).1)
  {
    hide Lifecycle.CanTransition, KeepsGenerations;
    AnyReplacementKept(s, Move(s, id, d, to).1, id);
  }

  lemma AnyReplacementKept(s: State, t: State, id: Id)
    requires id in s.artifacts && id in t.artifacts && t.artifacts == s.artifacts[id := t.artifacts[id]]
    requires t.artifacts[id].generation == s.artifacts[id].generation
    ensures KeepsGenerations(s, t)
  {
  }

  lemma SameArtifactsKept(s: State, t: State)
    requires t.artifacts == s.artifacts
    ensures KeepsGenerations(s, t)
  {
  }

  lemma OneKept(s: State, id: Id, cause: Bytes)
    requires id in s.artifacts
    ensures KeepsGenerations(s, InvalidateOne(s, id, cause).1)
  {
    hide Move, KeepsGenerations;
    MoveKept(s, id, s.artifacts[id], INVALIDATED);
    var t := Move(s, id, s.artifacts[id], INVALIDATED).1;
    SameArtifactsKept(t, InvalidateOne(s, id, cause).1);
    KeptTwice(s, t, InvalidateOne(s, id, cause).1);
  }

  lemma {:induction false} FromKept(s: State, id: Id, cause: Bytes)
    requires WellFormed(s)
    ensures KeepsGenerations(s, InvalidateFrom(s, id, cause).1)
    decreases |LiveSet(s)|, if Live(s, id) then 0 else 2, 0
  {
    hide WellFormed, InvalidateEach, InvalidateOne, InvalidateFrom, KeepsGenerations, LiveSet;
    FromUnfolds(s, id, cause);
    if Live(s, id) {
      InvalidateOneSettles(s, id, cause);
      OneKept(s, id, cause);
      var (moved, t) := InvalidateOne(s, id, cause);
      if moved.Returned? {
        EachKept(t, SortedIds(Dependents(t.graph, id)), cause);
        KeptTwice(s, t, InvalidateFrom(s, id, cause).1);
      }
    } else {
      EachKept(s, SortedIds(Dependents(s.graph, id)), cause);
    }
  }

  lemma {:induction false} EachKept(s: State, ids: seq<Id>, cause: Bytes)
    requires WellFormed(s)
    ensures KeepsGenerations(s, InvalidateEach(s, ids, cause).1)
    decreases |LiveSet(s)|, 1, |ids|
  {
    hide WellFormed, InvalidateEach, InvalidateFrom, KeepsGenerations, LiveSet;
    EachUnfolds(s, ids, cause);
    if ids == [] {
      SameArtifactsKept(s, s);
    } else if Live(s, ids[0]) {
      FromKept(s, ids[0], cause);
      var (done, t) := InvalidateFrom(s, ids[0], cause);
      Collections.SubsetSize(LiveSet(t), LiveSet(s));
      if done.Returned? {
        EachKept(t, ids[1..], cause);
        KeptTwice(s, t, InvalidateEach(s, ids, cause).1);
      }
    } else {
      EachKept(s, ids[1..], cause);
    }
  }

  /** Nothing but artifact `id` is entered. */
  ghost predicate EntersOnly(s: State, t: State, id: Id) {
    forall x :: x in s.artifacts && x != id ==> x in t.artifacts && t.artifacts[x] == s.artifacts[x]
  }

  lemma EnterOnly(h: Bytes -> Digest, s: State, d: Descriptor)
    requires WellFormed(s)
    ensures EntersOnly(s, Enter(h, s, d).1, d.id)
  {
    hide WellFormed, Link, Sign, Unsigned, Charge, Valid;
    GraphOf(s);
    var s1 := s.(artifacts := s.artifacts[d.id := d]);
    var (linked, g) := Link(s1.graph, d.id, d.dependencies);
    UnsignedId(h, g, d);
    if linked.Returned? && Sign(h, g, d).Returned? {
      var e := Sign(h, g, d).value;
      ChargeSame(s1.(graph := g, artifacts := s1.artifacts[d.id := e]), e);
    }
  }

  lemma PublishKept(h: Bytes -> Digest, s: State, req: PublishRequest, d: Descriptor)
    requires WellFormed(s)
    ensures KeepsGenerations(s, PublishLocked(h, s, req, d).1)
  {
    hide WellFormed, Enter, Keep;
    var size := ChargedSize(d, req.content);
    KeepSame(s, d.contentDigest, req.content, size);
    var s1 := Keep(s, d.contentDigest, req.content, size).1;
    StoreKeeps(s, s1);
    EnterOnly(h, s1, d.(lifecycle := BUILDING));
  }

  lemma RetireKept(s: State, id: Id)
    ensures KeepsGenerations(s, RetireLocked(s, id).1)
  {
    hide Lifecycle.CanTransition, Drop, Discharge;
    if id in s.artifacts {
      var d := s.artifacts[id];
      var s1 := s.(artifacts := s.artifacts[id := d.(lifecycle := RETIRED)], indexed := s.indexed - {id});
      DropSame(s1, d.contentDigest);
      DischargeSame(Drop(s1, d.contentDigest).1, d);
    }
  }

  lemma SupersedeKept(s: State, id: Id, successor: Id, a: Authority)
    ensures KeepsGenerations(s, SupersedeLocked(s, id, successor, a).1)
  {
    hide Move, Push, KeepsGenerations;
    SameArtifactsKept(s, s);
    if id in s.artifacts {
      MoveKept(s, id, s.artifacts[id], SUPERSEDED);
      var t, u := Move(s, id, s.artifacts[id], SUPERSEDED).1, SupersedeLocked(s, id, successor, a).1;
      SameArtifactsKept(t, t.(successors := u.successors, predecessors := u.predecessors, counters := u.counters));
      KeptTwice(s, t, t.(successors := u.successors, predecessors := u.predecessors, counters := u.counters));
    }
  }

  lemma SetAsideKept(s: State, id: Id, record: Quarantine)
    ensures KeepsGenerations(s, QuarantineLocked(s, id, record).1)
  {
    hide Move, Push, KeepsGenerations;
    SameArtifactsKept(s, s);
    if id in s.artifacts {
      var d := s.artifacts[id].(validation := QUARANTINE);
      MoveKept(s, id, d, QUARANTINED);
      var t, u := Move(s, id, d, QUARANTINED).1, QuarantineLocked(s, id, record).1;
      SameArtifactsKept(t, u);
      KeptTwice(s, t, u);
    }
  }

  /** Whether it returns or throws. */
  lemma LockedKept(h: Bytes -> Digest, s: State, c: Call, next: U64)
    requires WellFormed(s) && c.Mutates()
    ensures KeepsGenerations(s, Locked(h, s, c, next).1)
  {
    hide WellFormed, Complete, PublishLocked, InvalidateLocked, RetireLocked, SupersedeLocked, QuarantineLocked, Move,
      KeepsGenerations;
    SameArtifactsKept(s, s);
    match c
    case Register(desc, a) => RegisterKept(s, desc);
    case Publish(req) =>
      var d := Complete(h, next, req);
      if d.Returned? { PublishKept(h, s, req, d.value); }
    case Validate(id, report, a) =>
      if id in s.artifacts {
        MoveKept(s, id, s.artifacts[id].(validation := report.state), if report.AllOk() then VALID else FAILED);
      }
    case Promote(id, a) => if id in s.artifacts { MoveKept(s, id, s.artifacts[id], ACTIVE); }
    case Supersede(id, successor, a) => SupersedeKept(s, id, successor, a);
    case Invalidate(id, cause, a) => InvalidateKept(s, id, cause, a);
    case SetAside(id, record, a) => SetAsideKept(s, id, record);
    case Retire(id, a) => RetireKept(s, id);
  }

  lemma RegisterKept(s: State, desc: Descriptor)
    ensures KeepsGenerations(s, RegisterLocked(s, desc).1)
  {
  }

  lemma InvalidateKept(s: State, id: Id, cause: Bytes, a: Authority)
    requires WellFormed(s)
    ensures KeepsGenerations(s, InvalidateLocked(s, id, cause, a).1)
  {
    hide WellFormed, InvalidateFrom, KeepsGenerations;
    SameArtifactsKept(s, s);
    FromKept(s, id, cause);
  }

  lemma NextKept(h: Bytes -> Digest, v: Server, e: Event)
    requires WellFormed(v.cat) && Possible(v, e)
    ensures KeepsGenerations(v.cat, Next(h, v, e).cat)
  {
    hide WellFormed, Locked, KeepsGenerations;
    SameArtifactsKept(v.cat, v.cat);
    if e.Run? { LockedKept(h, v.cat, v.requests[e.i].call, v.requests[e.i].stage.next); }
    if e.Roll? { SameArtifactsKept(v.cat, Next(h, v, e).cat); }
  }

  // ---- what a publication read ----------------------------------------------------------

  /** Request `i` read the next generation at event `p`, and it was `g`. */
  ghost predicate ReadAt(h: Bytes -> Digest, v: Server, run: seq<Event>, i: nat, p: nat, g: U64)
    requires WellFormed(v.cat)
  {
    p < |run| && run[p] == Prepare(i) && After(h, v, run[..p]).Some? && After(h, v, run[..p]).value.cat.nextGeneration == g
  }

  lemma ReadLater(h: Bytes -> Digest, v: Server, run: seq<Event>, i: nat, p: nat, g: U64)
    requires WellFormed(v.cat) && run != [] && ReadAt(h, v, run[..|run| - 1], i, p, g)
    ensures ReadAt(h, v, run, i, p, g)
  {
    hide WellFormed, After;
    assert run[..|run| - 1][..p] == run[..p];
  }

  lemma LastEvent(h: Bytes -> Digest, v: Server, run: seq<Event>)
    requires WellFormed(v.cat) && run != [] && After(h, v, run).Some?
    ensures After(h, v, run[..|run| - 1]).Some?
    ensures var u := After(h, v, run[..|run| - 1]).value;
      Possible(u, run[|run| - 1]) && After(h, v, run).value == Next(h, u, run[|run| - 1])
  {
    hide WellFormed, Next, Possible;
  }

  lemma PrepareReads(h: Bytes -> Digest, v: Server, i: nat)
    requires WellFormed(v.cat) && Possible(v, Prepare(i))
    ensures i < |v.requests| && Next(h, v, Prepare(i)).requests[i].stage == Prepared(v.cat.nextGeneration)
  {
  }

  lemma {:induction false} PreparedRead(h: Bytes -> Digest, v: Server, run: seq<Event>, i: nat) returns (p: nat)
    requires WellFormed(v.cat) && v.requests == [] && After(h, v, run).Some? && i < |After(h, v, run).value.requests|
    requires After(h, v, run).value.requests[i].stage.Prepared?
    ensures ReadAt(h, v, run, i, p, After(h, v, run).value.requests[i].stage.next)
  {
    hide WellFormed, Next, Possible, ReadAt;
    LastEvent(h, v, run);
    var init, e := run[..|run| - 1], run[|run| - 1];
    var u := After(h, v, init).value;
    p := |init|;
    if i >= |u.requests| {
      NewRequest(h, u, e, i);
    } else {
      RequestAfter(h, u, e, i);
      if e == Prepare(i) {
        PrepareReads(h, u, i);
        ReadNow(h, v, run, i);
      } else {
        if e == FenceIt(i) || e == Run(i) { FenceIsNotPrepare(h, u, e, i); }
        p := PreparedRead(h, v, init, i);
        ReadLater(h, v, run, i, p, u.requests[i].stage.next);
      }
    }
  }

  lemma ReadNow(h: Bytes -> Digest, v: Server, run: seq<Event>, i: nat)
    requires WellFormed(v.cat) && run != [] && run[|run| - 1] == Prepare(i) && After(h, v, run[..|run| - 1]).Some?
    ensures ReadAt(h, v, run, i, |run| - 1, After(h, v, run[..|run| - 1]).value.cat.nextGeneration)
  {
  }

  lemma FenceIsNotPrepare(h: Bytes -> Digest, v: Server, e: Event, i: nat)
    requires WellFormed(v.cat) && Possible(v, e) && i < |v.requests| && (e == FenceIt(i) || e == Run(i))
    ensures !Next(h, v, e).requests[i].stage.Prepared?
  {
    hide WellFormed, Locked;
  }

  predicate OpenPublication(c: Call) {
    c.Publish? && c.request.descriptor.generation == 0
  }

  /** Artifact `x` entered with generation `g`, under the identifier request `c` stands for then. */
  ghost predicate HasEntered(h: Bytes -> Digest, s: State, c: Call, g: U64, x: Id) {
    && OpenPublication(c) && Complete(h, g, c.request).Returned? && Complete(h, g, c.request).value.id == x
    && x in s.artifacts && s.artifacts[x].generation == g
  }

  lemma RunEnters(h: Bytes -> Digest, v: Server, i: nat) returns (x: Id)
    requires WellFormed(v.cat) && Possible(v, Run(i)) && OpenPublication(v.requests[i].call)
    requires Next(h, v, Run(i)).requests[i].stage == Done(true)
    ensures v.requests[i].stage.Prepared? && x !in v.cat.artifacts
    ensures HasEntered(h, Next(h, v, Run(i)).cat, v.requests[i].call, v.requests[i].stage.next, x)
  {
    hide WellFormed, Locked, Complete;
    var c, g := v.requests[i].call, v.requests[i].stage.next;
    PublishesUnder(h, v.cat, c.request, g);
    x := Complete(h, g, c.request).value.id;
  }

  lemma EnteredStays(h: Bytes -> Digest, s: State, t: State, c: Call, g: U64, x: Id)
    requires HasEntered(h, s, c, g, x) && KeepsGenerations(s, t)
    ensures HasEntered(h, t, c, g, x)
  {
    hide Complete;
  }

  lemma DoneKnown(h: Bytes -> Digest, v: Server, e: Event, i: nat)
    requires WellFormed(v.cat) && Possible(v, e) && i < |Next(h, v, e).requests| && Next(h, v, e).requests[i].stage.Done?
    ensures i < |v.requests|
  {
    hide WellFormed, Next, Possible;
    if i >= |v.requests| { NewRequest(h, v, e, i); }
  }

  lemma DoneBefore(h: Bytes -> Digest, v: Server, e: Event, i: nat)
    requires WellFormed(v.cat) && Possible(v, e) && i < |v.requests| && Next(h, v, e).requests[i].stage == Done(true)
    ensures e == Run(i) || v.requests[i].stage == Done(true)
  {
    hide WellFormed, Locked;
  }

  /** A publication that left its generation open and succeeded: the artifact it entered has the
      generation that was next when it was read, to the end of the run. */
  lemma {:induction false} EnteredAsRead(h: Bytes -> Digest, v: Server, run: seq<Event>, i: nat) returns (p: nat, g: U64, x: Id)
    requires WellFormed(v.cat) && v.requests == [] && After(h, v, run).Some? && i < |After(h, v, run).value.requests|
    requires After(h, v, run).value.requests[i].stage == Done(true) && OpenPublication(After(h, v, run).value.requests[i].call)
    ensures ReadAt(h, v, run, i, p, g) && HasEntered(h, After(h, v, run).value.cat, After(h, v, run).value.requests[i].call, g, x)
  {
    hide WellFormed, Next, Possible, ReadAt, HasEntered, KeepsGenerations, OpenPublication;
    LastEvent(h, v, run);
    var init, e := run[..|run| - 1], run[|run| - 1];
    var u := After(h, v, init).value;
    DoneKnown(h, u, e, i);
    RequestAfter(h, u, e, i);
    DoneBefore(h, u, e, i);
    if e == Run(i) {
      x := RunEnters(h, u, i);
      p := PreparedRead(h, v, init, i);
      g := u.requests[i].stage.next;
    } else {
      p, g, x := EnteredAsRead(h, v, init, i);
      NextKept(h, u, e);
      EnteredStays(h, u.cat, Next(h, u, e).cat, u.requests[i].call, g, x);
    }
    ReadLater(h, v, run, i, p, g);
  }

  /** Two publications that left their generations open and succeeded, in any interleaving with
      anything else: they entered two artifacts, and these have the same generation exactly when
      the two publications read the same next generation. */
  lemma {:induction false} SameGenerationIff(h: Bytes -> Digest, v: Server, run: seq<Event>, i: nat, j: nat)
    returns (p: nat, q: nat, g: U64, k: U64, x: Id, y: Id)
    requires WellFormed(v.cat) && v.requests == [] && After(h, v, run).Some? && i != j
    requires i < |After(h, v, run).value.requests| && j < |After(h, v, run).value.requests|
    requires After(h, v, run).value.requests[i].stage == Done(true) && OpenPublication(After(h, v, run).value.requests[i].call)
    requires After(h, v, run).value.requests[j].stage == Done(true) && OpenPublication(After(h, v, run).value.requests[j].call)
    ensures ReadAt(h, v, run, i, p, g) && ReadAt(h, v, run, j, q, k)
    ensures var w := After(h, v, run).value;
      && HasEntered(h, w.cat, w.requests[i].call, g, x) && HasEntered(h, w.cat, w.requests[j].call, k, y)
      && x != y && (w.cat.artifacts[x].generation == w.cat.artifacts[y].generation <==> g == k)
  {
    hide WellFormed, Next, Possible, ReadAt, KeepsGenerations, OpenPublication, Complete;
    LastEvent(h, v, run);
    var init, e := run[..|run| - 1], run[|run| - 1];
    var u := After(h, v, init).value;
    DoneKnown(h, u, e, i);
    DoneKnown(h, u, e, j);
    RequestAfter(h, u, e, i);
    RequestAfter(h, u, e, j);
    DoneBefore(h, u, e, i);
    DoneBefore(h, u, e, j);
    NextKept(h, u, e);
    if e == Run(i) {
      x := RunEnters(h, u, i);
      p := PreparedRead(h, v, init, i);
      g := u.requests[i].stage.next;
      q, k, y := EnteredAsRead(h, v, init, j);
      EnteredStays(h, u.cat, Next(h, u, e).cat, u.requests[j].call, k, y);
    } else if e == Run(j) {
      y := RunEnters(h, u, j);
      q := PreparedRead(h, v, init, j);
      k := u.requests[j].stage.next;
      p, g, x := EnteredAsRead(h, v, init, i);
      EnteredStays(h, u.cat, Next(h, u, e).cat, u.requests[i].call, g, x);
    } else {
      p, q, g, k, x, y := SameGenerationIff(h, v, init, i, j);
      EnteredStays(h, u.cat, Next(h, u, e).cat, u.requests[i].call, g, x);
      EnteredStays(h, u.cat, Next(h, u, e).cat, u.requests[j].call, k, y);
    }
    ReadLater(h, v, run, i, p, g);
    ReadLater(h, v, run, j, q, k);
  }
}
