/** The coordinator: one request at a time as a function of the catalog, and many at once with
    the fence and the mutation as separate steps. */
module Coordination {
  import opened Types
  import opened Accounting
  import opened CatalogModel
  import opened CatalogEffects
  import opened Invalidation
  import opened CatalogIndex
  import opened Catalogs
  import Publications
  import opened Protocol
  import CatalogImage
  import Lifecycle
  import Ledger

  const HELLO := 0
  const REGISTER_PRODUCER := 1
  const PUBLISH := 4
  const VALIDATE := 5
  const SUPERSEDE := 7
  const INVALIDATE := 8
  const RETIRE := 9
  const QUERY := 10
  const REPORT := 11

  /** The control actions, as the bytes of "roll_epoch", "save:" and "accounting". */
  const ROLL_EPOCH: Bytes := [0x72, 0x6f, 0x6c, 0x6c, 0x5f, 0x65, 0x70, 0x6f, 0x63, 0x68]
  const SAVE: Bytes := [0x73, 0x61, 0x76, 0x65, 0x3a]
  const ACCOUNTING: Bytes := [0x61, 0x63, 0x63, 0x6f, 0x75, 0x6e, 0x74, 0x69, 0x6e, 0x67]

  /** A response, with the exception in place of its text. */
  datatype Reply = Reply(
    ok: bool, error: Option<Error>, artifactId: Id, contentDigest: Digest, epoch: U64, boot: Id,
    found: Option<Descriptor>, accounts: Option<Counters>)

  const BLANK := Reply(false, None, 0, 0, 0, 0, None, None)

  /** The mutation a request asks for. */
  function CallOf(q: Request): Option<Call> {
    if q.kind == PUBLISH then Some(Publish(PublishRequest(q.descriptor, q.content, q.authority)))
    else if q.kind == VALIDATE then
      Some(Validate(q.artifactId, CatalogModel.Report(if q.validationOk then VALIDATED else INVALID, []), q.authority))
    else if q.kind == SUPERSEDE then Some(Supersede(q.artifactId, q.artifactId2, q.authority))
    else if q.kind == INVALIDATE then Some(Invalidate(q.artifactId, q.cause, q.authority))
    else if q.kind == RETIRE then Some(Retire(q.artifactId, q.authority))
    else None
  }

  function Answer(r: Outcome<()>): Reply {
    BLANK.(ok := r.Returned?, error := if r.Threw? then Some(r.error) else None)
  }

  /** The epoch and boot identifier a worker is to use. */
  function Greeting(s: State): Reply {
    BLANK.(ok := true, epoch := s.epoch, boot := s.boot)
  }

  /** The reply to a request that changes nothing; unknown types are refused. */
  function Told(s: State, q: Request, random: Id): Reply {
    if q.kind == HELLO then Greeting(s)
    else if q.kind == REGISTER_PRODUCER then Greeting(s).(artifactId := random)
    else if q.kind == QUERY then
      BLANK.(ok := true, found := if q.artifactId in s.artifacts then Some(s.artifacts[q.artifactId]) else None)
    else BLANK
  }

  /** The reply to a control action, in the catalog it leaves: after a roll it tells the new
      epoch. Unknown actions are refused. */
  ghost function Controlled(s: State, cause: Bytes): Reply {
    if cause == ROLL_EPOCH then Greeting(s)
    else if SAVE <= cause then
      BLANK.(ok := CatalogImage.Save(s).Returned?,
             error := if CatalogImage.Save(s).Threw? then Some(CatalogImage.Save(s).error) else None)
    else if cause == ACCOUNTING then BLANK.(ok := true, accounts := Some(Ledger.Snapshot(s)))
    else BLANK
  }

  class Coordinator {
    const cat: Catalog

    constructor (h: Bytes -> Digest, random: Id)
      ensures cat.Valid() && cat.hash == h && fresh(cat) && fresh(cat.graph) && fresh(cat.accounts) && fresh(cat.indexes)
      ensures cat.S() == Do(h, NEW_CATALOG, SetAuthority(1, random)).1
    {
      var c := new Catalog(h);
      c.SetAuthority(1, random);
      cat := c;
    }

    /** The requests that change the catalog; an exception becomes an unsuccessful reply. */
    method Mutate(q: Request) returns (reply: Reply)
      requires cat.Valid() && CallOf(q).Some?
      modifies cat, cat.graph, cat.accounts, cat.indexes
      ensures cat.Valid() && cat.S() == Do(cat.hash, old(cat.S()), CallOf(q).value).1
      ensures reply.ok <==> Do(cat.hash, old(cat.S()), CallOf(q).value).0.Returned?
      ensures q.kind == PUBLISH && reply.ok ==>
        var d := Complete(cat.hash, old(cat.nextGeneration), PublishRequest(q.descriptor, q.content, q.authority));
        d.Returned? && reply == Greeting(cat.S()).(artifactId := d.value.id, contentDigest := cat.hash(q.content))
      ensures q.kind != PUBLISH || !reply.ok ==> reply == Answer(Do(cat.hash, old(cat.S()), CallOf(q).value).0)
    {
      hide WellFormed, Reflects, Do, Complete;
      var r: Outcome<()>;
      var receipt := Receipt(0, 0);
      if q.kind == PUBLISH {
        r, receipt := cat.Publish(PublishRequest(q.descriptor, q.content, q.authority));
      } else if q.kind == INVALIDATE {
        r := cat.Invalidate(q.artifactId, q.cause, q.authority);
      } else if q.kind == SUPERSEDE {
        r := cat.Supersede(q.artifactId, q.artifactId2, q.authority);
      } else if q.kind == VALIDATE {
        var report := CatalogModel.Report(if q.validationOk then VALIDATED else INVALID, []);
        r := cat.Validate(q.artifactId, report, q.authority);
      } else {
        r := cat.Retire(q.artifactId, q.authority);
      }
      reply := Answer(r);
      if q.kind == PUBLISH && r.Returned? {
        reply := reply.(artifactId := receipt.id, contentDigest := receipt.contentDigest,
                        epoch := cat.epoch, boot := cat.boot);
      }
    }

    /** `process`; `random` stands for the fresh identifier some requests draw. */
    method Process(q: Request, random: Id) returns (reply: Reply)
      requires cat.Valid()
      modifies cat, cat.graph, cat.accounts, cat.indexes
      ensures cat.Valid()
      ensures CallOf(q).Some? ==>
        cat.S() == Do(cat.hash, old(cat.S()), CallOf(q).value).1
        && (reply.ok <==> Do(cat.hash, old(cat.S()), CallOf(q).value).0.Returned?)
      ensures q.kind == PUBLISH && reply.ok ==>
        var d := Complete(cat.hash, old(cat.nextGeneration), PublishRequest(q.descriptor, q.content, q.authority));
        d.Returned? && reply == Greeting(cat.S()).(artifactId := d.value.id, contentDigest := cat.hash(q.content))
      ensures CallOf(q).Some? && (q.kind != PUBLISH || !reply.ok) ==>
        reply == Answer(Do(cat.hash, old(cat.S()), CallOf(q).value).0)
      ensures CallOf(q).None? ==>
        cat.S() == if q.kind == REPORT && q.cause == ROLL_EPOCH
                   then Do(cat.hash, old(cat.S()), RollEpoch(random)).1 else old(cat.S())
      ensures CallOf(q).None? && q.kind != REPORT ==> reply == Told(cat.S(), q, random)
      ensures q.kind == REPORT ==> reply == Controlled(cat.S(), q.cause)
    {
      hide WellFormed, Reflects, Do, Complete;
      if CallOf(q).Some? {
        reply := Mutate(q);
        return;
      }
      reply := BLANK;
      if q.kind == HELLO {
        reply := reply.(ok := true, epoch := cat.epoch, boot := cat.boot);
      } else if q.kind == REGISTER_PRODUCER {
        reply := reply.(ok := true, artifactId := random, epoch := cat.epoch, boot := cat.boot);
      } else if q.kind == QUERY {
        reply := reply.(ok := true,
                        found := if q.artifactId in cat.artifacts then Some(cat.artifacts[q.artifactId]) else None);
      } else if q.kind == REPORT {
        reply := Control(q.cause, random);
      }
    }

    /** The control actions; writing the image to a file is not part of this model. */
    method Control(cause: Bytes, random: Id) returns (reply: Reply)
      requires cat.Valid()
      modifies cat
      ensures cat.Valid()
      ensures cat.S() == if cause == ROLL_EPOCH then Do(cat.hash, old(cat.S()), RollEpoch(random)).1 else old(cat.S())
      ensures reply == Controlled(cat.S(), cause)
    {
      hide WellFormed, Reflects, Do;
      reply := BLANK;
      assert ROLL_EPOCH[0] == 0x72 && ACCOUNTING[0] == 0x61 && SAVE[0] == 0x73;
      if cause == ROLL_EPOCH {
        cat.RollEpoch(random);
        reply := reply.(ok := true, epoch := cat.epoch, boot := cat.boot);
      } else if SAVE <= cause {
        var image := cat.Save();
        reply := reply.(ok := image.Returned?, error := if image.Threw? then Some(image.error) else None);
      } else if cause == ACCOUNTING {
        var counters := cat.CurrentAccounting();
        reply := reply.(ok := true, accounts := Some(counters));
      }
    }
  }

  // ---- many requests at once ------------------------------------------------------------

  /** Where a mutation is. A publication reads the next generation between its fence and its
      locked part. */
  datatype Stage = Arrived | Fenced | Prepared(next: U64) | Done(ok: bool)

  datatype Pending = Pending(call: Call, stage: Stage)

  datatype Server = Server(cat: State, requests: seq<Pending>)

  datatype Event = Arrive(call: Call) | FenceIt(i: nat) | Prepare(i: nat) | Run(i: nat) | Roll(boot: Id)

  predicate Possible(v: Server, e: Event) {
    match e
    case Arrive(call) => call.Mutates()
    case FenceIt(i) => i < |v.requests| && v.requests[i].stage == Arrived && v.requests[i].call.Mutates()
    case Prepare(i) => i < |v.requests| && v.requests[i].stage == Fenced
    case Run(i) => i < |v.requests| && v.requests[i].stage.Prepared? && v.requests[i].call.Mutates()
    case Roll(_) => true
  }

  function Advance(v: Server, i: nat, stage: Stage): Server
    requires i < |v.requests|
  {
    v.(requests := v.requests[i := v.requests[i].(stage := stage)])
  }

  ghost function Next(h: Bytes -> Digest, v: Server, e: Event): (w: Server)
    requires WellFormed(v.cat) && Possible(v, e)
    ensures WellFormed(w.cat)
  {
    match e
    case Arrive(call) => v.(requests := v.requests + [Pending(call, Arrived)])
    case FenceIt(i) =>
      if Fence(v.cat.epoch, v.cat.boot, v.requests[i].call.Envelope()).Returned? then Advance(v, i, Fenced)
      else Advance(v, i, Done(false))
    case Prepare(i) => Advance(v, i, Prepared(v.cat.nextGeneration))
    case Run(i) =>
      LockedKeeps(h, v.cat, v.requests[i].call, v.requests[i].stage.next);
      var (r, t) := Locked(h, v.cat, v.requests[i].call, v.requests[i].stage.next);
      Advance(v, i, Done(r.Returned?)).(cat := t)
    case Roll(boot) =>
      DoKeeps(h, v.cat, RollEpoch(boot));
      v.(cat := Do(h, v.cat, RollEpoch(boot)).1)
  }

  /** The server after a sequence of events, if each was possible. */
  ghost function After(h: Bytes -> Digest, v: Server, run: seq<Event>): (w: Option<Server>)
    requires WellFormed(v.cat)
    ensures w.Some? ==> WellFormed(w.value.cat)
  {
    if run == [] then Some(v)
    else
      match After(h, v, run[..|run| - 1])
      case None => None
      case Some(u) => if Possible(u, run[|run| - 1]) then Some(Next(h, u, run[|run| - 1])) else None
  }

  function Rolls(run: seq<Event>): nat {
    if run == [] then 0 else Rolls(run[..|run| - 1]) + if run[|run| - 1].Roll? then 1 else 0
  }

  // ---- the epoch ------------------------------------------------------------------------

  /** No mutation touches the epoch. */
  lemma LockedEpoch(h: Bytes -> Digest, s: State, c: Call, next: U64)
    requires WellFormed(s) && c.Mutates()
    ensures Locked(h, s, c, next).1.epoch == s.epoch
  {
    hide WellFormed, Complete, PublishLocked, InvalidateLocked, RetireLocked, Lifecycle.CanTransition, Push;
    match c
    case Publish(req) =>
      var d := Complete(h, next, req);
      if d.Returned? { PublishEpoch(h, s, req, d.value); }
    case Retire(id, a) => RetireEpoch(s, id);
    case Invalidate(id, cause, a) => InvalidateOnlyStates(s, id, cause, a);
    case _ =>
  }

  lemma PublishEpoch(h: Bytes -> Digest, s: State, req: PublishRequest, d: Descriptor)
    requires WellFormed(s)
    ensures PublishLocked(h, s, req, d).1.epoch == s.epoch
  {
    hide WellFormed, Keep, Link, Sign, Unsigned, Charge;
    var (kept, s1) := Keep(s, d.contentDigest, req.content, ChargedSize(d, req.content));
    KeepSame(s, d.contentDigest, req.content, ChargedSize(d, req.content));
    StoreKeeps(s, s1);
    EnterEpoch(h, s1, d.(lifecycle := BUILDING));
    hide Enter;
  }

  lemma EnterEpoch(h: Bytes -> Digest, s: State, d: Descriptor)
    requires WellFormed(s)
    ensures Enter(h, s, d).1.epoch == s.epoch
  {
    hide WellFormed, Link, Sign, Unsigned, Charge;
    GraphOf(s);
    var s1 := s.(artifacts := s.artifacts[d.id := d]);
    var (linked, g) := Link(s1.graph, d.id, d.dependencies);
    if Sign(h, g, d).Returned? {
      var e := Sign(h, g, d).value;
      ChargeSame(s1.(graph := g, artifacts := s1.artifacts[d.id := e]), e);
    }
  }

  lemma RetireEpoch(s: State, id: Id)
    ensures RetireLocked(s, id).1.epoch == s.epoch
  {
    hide Drop, Discharge, Lifecycle.CanTransition;
    if id in s.artifacts {
      var d := s.artifacts[id];
      var s1 := s.(artifacts := s.artifacts[id := d.(lifecycle := RETIRED)], indexed := s.indexed - {id});
      DropSame(s1, d.contentDigest);
      DischargeSame(Drop(s1, d.contentDigest).1, d);
    }
  }

  lemma NextEpoch(h: Bytes -> Digest, v: Server, e: Event)
    requires WellFormed(v.cat) && Possible(v, e)
    ensures Next(h, v, e).cat.epoch == if e.Roll? then Up(v.cat.epoch) else v.cat.epoch
  {
    hide WellFormed, Locked;
    if e.Run? { LockedEpoch(h, v.cat, v.requests[e.i].call, v.requests[e.i].stage.next); }
  }

  /** Only rolls move the epoch, one at a time, as long as it does not wrap around. */
  lemma {:induction false} EpochCountsRolls(h: Bytes -> Digest, v: Server, run: seq<Event>)
    requires WellFormed(v.cat) && After(h, v, run).Some? && v.cat.epoch + Rolls(run) <= U64_MAX
    ensures After(h, v, run).value.cat.epoch == v.cat.epoch + Rolls(run)
  {
    hide WellFormed, Next, Possible;
    if run != [] {
      EpochCountsRolls(h, v, run[..|run| - 1]);
      NextEpoch(h, After(h, v, run[..|run| - 1]).value, run[|run| - 1]);
    }
  }

  // ---- fencing --------------------------------------------------------------------------

  lemma {:induction false} PrefixPossible(h: Bytes -> Digest, v: Server, run: seq<Event>, k: nat)
    requires WellFormed(v.cat) && After(h, v, run).Some? && k <= |run|
    ensures After(h, v, run[..k]).Some?
    ensures k < |run| ==>
      Possible(After(h, v, run[..k]).value, run[k])
      && After(h, v, run[..k + 1]) == Some(Next(h, After(h, v, run[..k]).value, run[k]))
  {
    hide WellFormed, Next, Possible;
    if k < |run| {
      var init := run[..|run| - 1];
      if k < |init| {
        PrefixPossible(h, v, init, k);
        assert init[..k] == run[..k] && init[..k + 1] == run[..k + 1];
      } else {
        assert run[..k + 1] == run && run[..k] == init;
      }
    } else {
      assert run[..k] == run;
    }
  }

  /** What one event does to request `i`. */
  lemma RequestAfter(h: Bytes -> Digest, v: Server, e: Event, i: nat)
    requires WellFormed(v.cat) && Possible(v, e) && i < |v.requests|
    ensures i < |Next(h, v, e).requests| && Next(h, v, e).requests[i].call == v.requests[i].call
    ensures e != FenceIt(i) && e != Prepare(i) && e != Run(i) ==> Next(h, v, e).requests[i] == v.requests[i]
    ensures v.requests[i].stage.Done? ==> e != FenceIt(i) && e != Prepare(i) && e != Run(i)
    ensures e == Run(i) ==> v.requests[i].stage.Prepared? && Next(h, v, e).requests[i].stage.Done?
    ensures e == Prepare(i) ==> v.requests[i].stage == Fenced && Next(h, v, e).requests[i].stage.Prepared?
  {
    hide WellFormed, Locked, Do;
  }

  /** A finished request takes no more steps. */
  lemma {:induction false} DoneStays(h: Bytes -> Digest, v: Server, run: seq<Event>, k: nat, i: nat)
    requires WellFormed(v.cat) && After(h, v, run).Some? && k <= |run| && After(h, v, run[..k]).Some?
    requires i < |After(h, v, run[..k]).value.requests| && After(h, v, run[..k]).value.requests[i].stage.Done?
    ensures i < |After(h, v, run).value.requests|
    ensures After(h, v, run).value.requests[i] == After(h, v, run[..k]).value.requests[i]
    ensures forall j :: k <= j < |run| ==> run[j] != FenceIt(i) && run[j] != Run(i)
  {
    hide WellFormed, Next, Possible;
    if k == |run| {
      assert run[..k] == run;
    } else {
      var init := run[..|run| - 1];
      assert init[..k] == run[..k];
      DoneStays(h, v, init, k, i);
      RequestAfter(h, After(h, v, init).value, run[|run| - 1], i);
    }
  }

  /** The fence of request `i` was passed at `f`, under the epoch it carries. */
  ghost predicate PassedAt(h: Bytes -> Digest, v: Server, run: seq<Event>, i: nat, f: nat, epoch: U64)
    requires WellFormed(v.cat)
  {
    f < |run| && run[f] == FenceIt(i) && After(h, v, run[..f]).Some? && After(h, v, run[..f]).value.cat.epoch == epoch
  }

  predicate PastFence(p: Pending) { p.stage.Fenced? || p.stage.Prepared? }

  lemma FenceResult(h: Bytes -> Digest, v: Server, i: nat)
    requires WellFormed(v.cat) && Possible(v, FenceIt(i))
    ensures Next(h, v, FenceIt(i)).cat == v.cat
    ensures PastFence(Next(h, v, FenceIt(i)).requests[i]) ==> v.cat.epoch == v.requests[i].call.Envelope().epoch
    ensures v.cat.epoch != v.requests[i].call.Envelope().epoch ==> Next(h, v, FenceIt(i)).requests[i].stage == Done(false)
  {
    hide WellFormed;
  }

  lemma NewRequest(h: Bytes -> Digest, v: Server, e: Event, i: nat)
    requires WellFormed(v.cat) && Possible(v, e) && |v.requests| <= i && i < |Next(h, v, e).requests|
    ensures Next(h, v, e).requests[i].stage == Arrived && Next(h, v, e).requests[i].call.Mutates()
  {
    hide WellFormed, Locked, Do;
  }

  lemma {:induction false} FencedUnderItsEpoch(h: Bytes -> Digest, v: Server, run: seq<Event>, i: nat) returns (f: nat)
    requires WellFormed(v.cat) && v.requests == [] && After(h, v, run).Some?
    requires i < |After(h, v, run).value.requests| && PastFence(After(h, v, run).value.requests[i])
    ensures After(h, v, run).value.requests[i].call.Mutates()
    ensures PassedAt(h, v, run, i, f, After(h, v, run).value.requests[i].call.Envelope().epoch)
  {
    hide WellFormed, Next, Possible;
    var init, e := run[..|run| - 1], run[|run| - 1];
    var u := After(h, v, init).value;
    f := |init|;
    if i >= |u.requests| {
      NewRequest(h, u, e, i);
    } else {
      RequestAfter(h, u, e, i);
      if e == FenceIt(i) {
        FenceResult(h, u, i);
        MayFence(u, i);
        assert run[..f] == init;
      } else {
        f := FencedUnderItsEpoch(h, v, init, i);
        assert run[..f] == init[..f];
      }
    }
  }

  lemma MayFence(v: Server, i: nat)
    requires Possible(v, FenceIt(i))
    ensures i < |v.requests| && v.requests[i].call.Mutates()
  {
  }

  lemma MayRun(v: Server, i: nat)
    requires Possible(v, Run(i))
    ensures i < |v.requests| && v.requests[i].call.Mutates() && PastFence(v.requests[i])
  {
  }

  lemma {:induction false} RollsGrow(run: seq<Event>, a: nat, b: nat)
    requires a <= b <= |run|
    ensures Rolls(run[..a]) <= Rolls(run[..b])
    decreases b
  {
    if a < b {
      assert run[..b][..b - 1] == run[..b - 1];
      RollsGrow(run, a, b - 1);
    }
  }

  /** The epoch before event `k`. */
  function EpochAt(v: Server, run: seq<Event>, k: nat): nat
    requires k <= |run|
  {
    v.cat.epoch + Rolls(run[..k])
  }

  lemma EpochIs(h: Bytes -> Digest, v: Server, run: seq<Event>, k: nat)
    requires WellFormed(v.cat) && After(h, v, run).Some? && k <= |run| && EpochAt(v, run, |run|) <= U64_MAX
    ensures After(h, v, run[..k]).Some? && After(h, v, run[..k]).value.cat.epoch == EpochAt(v, run, k)
  {
    hide WellFormed, Next, Possible;
    PrefixPossible(h, v, run, k);
    RollsGrow(run, k, |run|);
    assert run[..|run|] == run;
    EpochCountsRolls(h, v, run[..k]);
  }

  /** A mutation takes effect only after passing its fence under exactly the epoch it carries;
      so if the epoch was rolled beyond that, the fence came before the roll. */
  lemma EffectNeedsEarlyFence(h: Bytes -> Digest, v: Server, run: seq<Event>, j: nat, i: nat) returns (f: nat)
    requires WellFormed(v.cat) && v.requests == [] && After(h, v, run).Some? && EpochAt(v, run, |run|) <= U64_MAX
    requires j < |run| && run[j] == Run(i)
    ensures After(h, v, run[..j]).Some? && i < |After(h, v, run[..j]).value.requests|
    ensures After(h, v, run[..j]).value.requests[i].call.Mutates()
    ensures var epoch := After(h, v, run[..j]).value.requests[i].call.Envelope().epoch;
      && f < j && run[f] == FenceIt(i) && EpochAt(v, run, f) == epoch
      && forall p :: 0 <= p < |run| && run[p].Roll? && EpochAt(v, run, p + 1) > epoch ==> f < p
  {
    hide WellFormed, Next, Possible;
    PrefixPossible(h, v, run, j);
    MayRun(After(h, v, run[..j]).value, i);
    f := FencedUnderItsEpoch(h, v, run[..j], i);
    assert run[..j][..f] == run[..f];
    EpochIs(h, v, run, f);
    forall p | 0 <= p < |run| && run[p].Roll? && EpochAt(v, run, p + 1) > EpochAt(v, run, f) ensures f < p {
      if p + 1 <= f { RollsGrow(run, p + 1, f); }
      assert run[f] == FenceIt(i);
    }
  }

  /** A mutation whose fence step finds the epoch rolled beyond the one it carries is answered
      with ok = false, leaves the catalog as it is, and never runs. */
  lemma LateFenceFails(h: Bytes -> Digest, v: Server, run: seq<Event>, p: nat, f: nat, i: nat)
    requires WellFormed(v.cat) && v.requests == [] && After(h, v, run).Some? && EpochAt(v, run, |run|) <= U64_MAX
    requires p < f < |run| && run[p].Roll? && run[f] == FenceIt(i)
    requires After(h, v, run[..f]).Some? && i < |After(h, v, run[..f]).value.requests|
    requires After(h, v, run[..f]).value.requests[i].call.Mutates()
    requires After(h, v, run[..f]).value.requests[i].call.Envelope().epoch < EpochAt(v, run, p + 1)
    ensures After(h, v, run[..f + 1]).Some?
    ensures After(h, v, run[..f + 1]).value.cat == After(h, v, run[..f]).value.cat
    ensures i < |After(h, v, run).value.requests| && After(h, v, run).value.requests[i].stage == Done(false)
    ensures forall j :: 0 <= j < |run| ==> run[j] != Run(i)
  {
    hide WellFormed, Next, Possible;
    var u := After(h, v, run[..f]).value;
    PrefixPossible(h, v, run, f);
    EpochIs(h, v, run, f);
    RollsGrow(run, p + 1, f);
    FenceResult(h, u, i);
    RequestAfter(h, u, run[f], i);
    PrefixPossible(h, v, run, f + 1);
    DoneStays(h, v, run, f + 1, i);
    forall j | 0 <= j < f ensures run[j] != Run(i) {
      if run[j] == Run(i) { RanBefore(h, v, run, j, f, i); }
    }
  }

  /** A request that ran cannot be fenced afterwards. */
  lemma RanBefore(h: Bytes -> Digest, v: Server, run: seq<Event>, j: nat, f: nat, i: nat)
    requires WellFormed(v.cat) && After(h, v, run).Some? && j < f < |run| && run[j] == Run(i)
    ensures run[f] != FenceIt(i)
  {
    hide WellFormed, Next, Possible;
    PrefixPossible(h, v, run, j);
    MayRun(After(h, v, run[..j]).value, i);
    RequestAfter(h, After(h, v, run[..j]).value, run[j], i);
    PrefixPossible(h, v, run, j + 1);
    DoneStays(h, v, run, j + 1, i);
  }

  // ---- generations ----------------------------------------------------------------------

  /** A publication that leaves its generation open, from its locked part on. */
  lemma PublishesUnder(h: Bytes -> Digest, s: State, req: PublishRequest, next: U64)
    requires WellFormed(s) && req.descriptor.generation == 0 && Locked(h, s, Publish(req), next).0.Returned?
    ensures var t := Locked(h, s, Publish(req), next).1;
      Complete(h, next, req).Returned? && var id := Complete(h, next, req).value.id;
      && id !in s.artifacts && id in t.artifacts && t.artifacts == s.artifacts[id := t.artifacts[id]]
      && t.artifacts[id].generation == next
  {
    hide WellFormed, PublishLocked, Publications.Admissible, Publications.Chargeable, Publications.Countable,
      DescriptorFormat.Encodable, Published;
    var d := Complete(h, next, req).value;
    CompleteFields(h, next, req);
    PublishEffect(h, s, req, d);
    Publications.LockedReturnsIff(h, s, req, d);
    Publications.OneEntered(h, s, PublishLocked(h, s, req, d).1, req, d.id);
    NewIdentifier(h, s, PublishLocked(h, s, req, d).1, req, d.id);
  }

  lemma NewIdentifier(h: Bytes -> Digest, s: State, t: State, req: PublishRequest, id: Id)
    requires id in t.artifacts && Published(h, s, t, req, t.artifacts[id]) && t.artifacts[id].id == id
    ensures id !in s.artifacts
  {
  }

  /** Two publications that have passed the fence both read the next generation before either
      takes the lock. */
  ghost function BothPublished(h: Bytes -> Digest, s: State, p: PublishRequest, q: PublishRequest): (w: Server)
    requires WellFormed(s)
    ensures |w.requests| == 2
    ensures w.cat == (
      LockedKeeps(h, s, Publish(p), s.nextGeneration);
      Locked(h, Locked(h, s, Publish(p), s.nextGeneration).1, Publish(q), s.nextGeneration).1)
    ensures w.requests[0].stage == Done(Locked(h, s, Publish(p), s.nextGeneration).0.Returned?)
    ensures w.requests[1].stage == (
      LockedKeeps(h, s, Publish(p), s.nextGeneration);
      Done(Locked(h, Locked(h, s, Publish(p), s.nextGeneration).1, Publish(q), s.nextGeneration).0.Returned?))
  {
    hide WellFormed, Locked;
    var v := Server(s, [Pending(Publish(p), Fenced), Pending(Publish(q), Fenced)]);
    Next(h, Next(h, Next(h, Next(h, v, Prepare(0)), Prepare(1)), Run(0)), Run(1))
  }

  /** If both succeed, there are two artifacts of the same generation. */
  lemma SharedGeneration(h: Bytes -> Digest, s: State, p: PublishRequest, q: PublishRequest)
    requires WellFormed(s) && p.descriptor.generation == 0 && q.descriptor.generation == 0
    ensures var w := BothPublished(h, s, p, q);
      w.requests[0].stage == Done(true) && w.requests[1].stage == Done(true) ==>
        exists x, y :: x in w.cat.artifacts && y in w.cat.artifacts && x != y
          && w.cat.artifacts[x].generation == s.nextGeneration == w.cat.artifacts[y].generation
  {
    hide WellFormed, Locked, BothPublished;
    var next := s.nextGeneration;
    LockedKeeps(h, s, Publish(p), next);
    var (r, t) := Locked(h, s, Publish(p), next);
    var (z, u) := Locked(h, t, Publish(q), next);
    if r.Returned? && z.Returned? {
      PublishesUnder(h, s, p, next);
      PublishesUnder(h, t, q, next);
      var x, y := Complete(h, next, p).value.id, Complete(h, next, q).value.id;
      assert x in u.artifacts && y in u.artifacts && x != y;
    }
  }
}
