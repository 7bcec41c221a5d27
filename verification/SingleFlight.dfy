/** Single-flight production: any number of callers of `get_or_build`, interleaved step by
    step. */
module SingleFlight {
  import opened Types

  // ---- the shared build object ----------------------------------------------------------

  /** A build in flight. `owner` records which caller claimed it. */
  datatype Flight = Flight(id: Id, claimed: bool, done: bool, result: Id, error: string, owner: Option<nat>)

  function NewFlight(id: Id): Flight { Flight(id, false, false, 0, "", None) }

  function WithResult(f: Flight, result: Id): Flight {
    if f.done then f else f.(result := result, done := true)
  }

  function WithError(f: Flight, error: string): Flight {
    if f.done then f else f.(error := error, done := true)
  }

  /** What `rendezvous` does once the flight is done: an empty error counts as success. */
  function Meet(f: Flight): Outcome<Id> {
    if f.error != "" then Threw(UnknownArtifact) else Returned(f.result)
  }

  /** `BuildSubscribe` itself; its mutex makes each method one atomic step. */
  class BuildSubscribe {
    const id: Id
    var done: bool
    var claimed: bool
    var result: Id
    var error: string
    ghost var owner: Option<nat>

    ghost function F(): Flight
      reads this
    {
      Flight(id, claimed, done, result, error, owner)
    }

    constructor (key: Id)
      ensures F() == NewFlight(key)
    {
      id, done, claimed, result, error, owner := key, false, false, 0, "", None;
    }

    method ClaimOwner(ghost caller: nat) returns (mine: bool)
      modifies this
      ensures mine == !old(claimed)
      ensures F() == if mine then old(F()).(claimed := true, owner := Some(caller)) else old(F())
    {
      if claimed { return false; }
      claimed := true;
      owner := Some(caller);
      mine := true;
    }

    method SetResult(value: Id)
      modifies this
      ensures F() == WithResult(old(F()), value)
    {
      if done { return; }
      result := value;
      done := true;
    }

    method SetError(message: string)
      modifies this
      ensures F() == WithError(old(F()), message)
    {
      if done { return; }
      error := message;
      done := true;
    }

    /** The condition variable has let the caller through. */
    method Rendezvous() returns (r: Outcome<Id>)
      requires done
      ensures r == Meet(F())
    {
      if error != "" { return Threw(UnknownArtifact); }
      r := Returned(result);
    }
  }

  /** The table of flights; its mutex makes each method one atomic step. */
  class FlightTable {
    var flights: map<Id, BuildSubscribe>

    constructor ()
      ensures flights == map[]
    {
      flights := map[];
    }

    /** The flight of `id`, made if there is none. */
    method FindOrMake(id: Id) returns (sub: BuildSubscribe)
      modifies this
      ensures flights == old(flights)[id := sub]
      ensures id in old(flights) ==> sub == old(flights)[id]
      ensures id !in old(flights) ==> fresh(sub) && sub.F() == NewFlight(id)
    {
      if id in flights {
        sub := flights[id];
      } else {
        sub := new BuildSubscribe(id);
        flights := flights[id := sub];
      }
    }

    /** A failed flight makes way for another, unless another is there already. */
    method EraseIfSame(id: Id, sub: BuildSubscribe)
      modifies this
      ensures flights == if id in old(flights) && old(flights)[id] == sub then old(flights) - {id} else old(flights)
    {
      if id in flights && flights[id] == sub { flights := flights - {id}; }
    }
  }

  // ---- the machine ----------------------------------------------------------------------

  /** How a producer ends. */
  datatype Ending = Committed(id: Id) | Uncommitted(error: string) | Raised(what: string) | RaisedUnknown

  function ErrorOf(e: Ending): string {
    match e
    case Committed(_) => ""
    case Uncommitted(error) => if error == "" then "producer returned uncommitted result" else error
    case Raised(what) => what
    case RaisedUnknown => "unknown producer exception"
  }

  /** Where a caller is. */
  datatype Pc =
    | Looking | Claiming | Starting | Running | Ended(e: Ending) | Erasing | Waiting | Gave(id: Id) | Failed

  datatype Caller = Caller(id: Id, pc: Pc, flight: nat)

  /** `flights` is the table of the catalog, `objects` every build object ever made; `log`
      lists the productions that succeeded, as (key, produced id). */
  datatype Machine = Machine(flights: map<Id, nat>, objects: seq<Flight>, callers: seq<Caller>, log: seq<(Id, Id)>)

  const IDLE := Machine(map[], [], [], [])

  datatype Action =
    | Call(id: Id) | Look(t: nat) | Claim(t: nat) | Start(t: nat) | End(t: nat, e: Ending)
    | Report(t: nat) | Erase(t: nat) | Return(t: nat)

  predicate At(m: Machine, t: nat, pc: Pc) {
    t < |m.callers| && m.callers[t].pc == pc
  }

  /** Whether a step can be taken. */
  predicate Enabled(m: Machine, a: Action) {
    match a
    case Call(_) => true
    case Look(t) => At(m, t, Looking)
    case Claim(t) => At(m, t, Claiming) && m.callers[t].flight < |m.objects|
    case Start(t) => At(m, t, Starting)
    case End(t, _) => At(m, t, Running)
    case Report(t) => t < |m.callers| && m.callers[t].pc.Ended? && m.callers[t].flight < |m.objects|
    case Erase(t) => At(m, t, Erasing)
    case Return(t) =>
      At(m, t, Waiting) && m.callers[t].flight < |m.objects| && m.objects[m.callers[t].flight].done
  }

  /** A producer that raises an exception gives it a message: an empty one would be taken for
      success (see `EmptyMessageIsSuccess`). */
  predicate Spoken(a: Action) {
    a.End? && a.e.Raised? ==> a.e.what != ""
  }

  function Goto(m: Machine, t: nat, pc: Pc): Machine
    requires t < |m.callers|
  {
    m.(callers := m.callers[t := m.callers[t].(pc := pc)])
  }

  function Next(m: Machine, a: Action): Machine
    requires Enabled(m, a)
  {
    match a
    case Call(id) => m.(callers := m.callers + [Caller(id, Looking, 0)])
    case Look(t) =>
      var id := m.callers[t].id;
      if id in m.flights then m.(callers := m.callers[t := Caller(id, Claiming, m.flights[id])])
      else m.(flights := m.flights[id := |m.objects|], objects := m.objects + [NewFlight(id)],
              callers := m.callers[t := Caller(id, Claiming, |m.objects|)])
    case Claim(t) =>
      var f := m.callers[t].flight;
      if m.objects[f].claimed then Goto(m, t, Waiting)
      else Goto(m.(objects := m.objects[f := m.objects[f].(claimed := true, owner := Some(t))]), t, Starting)
    case Start(t) => Goto(m, t, Running)
    case End(t, e) => Goto(m, t, Ended(e))
    case Report(t) =>
      var f := m.callers[t].flight;
      var e := m.callers[t].pc.e;
      if e.Committed? then
        Goto(m.(objects := m.objects[f := WithResult(m.objects[f], e.id)], log := m.log + [(m.callers[t].id, e.id)]), t, Waiting)
      else
        Goto(m.(objects := m.objects[f := WithError(m.objects[f], ErrorOf(e))]), t, Erasing)
    case Erase(t) =>
      var c := m.callers[t];
      Goto(if c.id in m.flights && m.flights[c.id] == c.flight then m.(flights := m.flights - {c.id}) else m, t, Waiting)
    case Return(t) =>
      var r := Meet(m.objects[m.callers[t].flight]);
      Goto(m, t, if r.Returned? then Gave(r.value) else Failed)
  }

  // ---- the invariant --------------------------------------------------------------------

  /** Between claiming a flight and reporting on it. */
  predicate Producing(pc: Pc) { pc.Starting? || pc.Running? || pc.Ended? }

  predicate Succeeded(f: Flight) { f.done && f.error == "" }

  ghost predicate TableOk(m: Machine) {
    forall id :: id in m.flights ==> m.flights[id] < |m.objects| && m.objects[m.flights[id]].id == id
  }

  /** A flight that is not done, or that succeeded, is the one in the table. */
  ghost predicate FlightOk(m: Machine, f: nat) {
    f < |m.objects| ==>
      var x := m.objects[f];
      && (!x.done || x.error == "" ==> x.id in m.flights && m.flights[x.id] == f)
      && (x.done ==> x.claimed) && (!x.done ==> x.error == "" && x.result == 0)
      && (x.claimed && !x.done ==>
            x.owner.Some? && x.owner.value < |m.callers| && m.callers[x.owner.value].flight == f
            && Producing(m.callers[x.owner.value].pc))
      && (Succeeded(x) ==> (x.id, x.result) in m.log)
  }

  ghost predicate CallerOk(m: Machine, t: nat) {
    t < |m.callers| ==>
      var c := m.callers[t];
      && (!c.pc.Looking? ==> c.flight < |m.objects| && m.objects[c.flight].id == c.id)
      && (Producing(c.pc) ==> var x := m.objects[c.flight]; x.claimed && !x.done && x.owner == Some(t) && x.error == "")
      && (c.pc.Ended? && c.pc.e.Raised? ==> c.pc.e.what != "")
      && (c.pc.Erasing? ==> var x := m.objects[c.flight]; x.done && x.error != "")
      && (c.pc.Waiting? ==> m.objects[c.flight].claimed)
      && (c.pc.Gave? ==> (c.id, c.pc.id) in m.log)
  }

  /** A success is recorded once, and its flight stays in the table. */
  ghost predicate LogOk(m: Machine) {
    && (forall i, j :: 0 <= i < j < |m.log| ==> m.log[i].0 != m.log[j].0)
    && (forall i :: 0 <= i < |m.log| ==> LoggedOk(m, m.log[i]))
  }

  ghost predicate LoggedOk(m: Machine, p: (Id, Id)) {
    && p.0 in m.flights && m.flights[p.0] < |m.objects|
    && Succeeded(m.objects[m.flights[p.0]]) && m.objects[m.flights[p.0]].result == p.1
  }

  ghost predicate Inv(m: Machine) {
    && TableOk(m) && (forall f :: FlightOk(m, f)) && (forall t :: CallerOk(m, t)) && LogOk(m)
  }

  lemma CallKeeps(m: Machine, id: Id)
    requires Inv(m)
    ensures Inv(Next(m, Call(id)))
  {
    var n := Next(m, Call(id));
    forall f ensures FlightOk(n, f) { assert FlightOk(m, f); }
    forall t ensures CallerOk(n, t) { assert CallerOk(m, t); }
    forall i | 0 <= i < |n.log| ensures LoggedOk(n, n.log[i]) { assert LoggedOk(m, m.log[i]); }
  }

  lemma LookKeeps(m: Machine, t: nat)
    requires Inv(m) && Enabled(m, Look(t))
    ensures Inv(Next(m, Look(t)))
  {
    var n := Next(m, Look(t));
    var id := m.callers[t].id;
    assert CallerOk(m, t);
    forall f ensures FlightOk(n, f) { assert FlightOk(m, f); }
    forall u ensures CallerOk(n, u) { assert CallerOk(m, u); }
    forall i | 0 <= i < |n.log| ensures LoggedOk(n, n.log[i]) { assert LoggedOk(m, m.log[i]); }
  }

  lemma ClaimKeeps(m: Machine, t: nat)
    requires Inv(m) && Enabled(m, Claim(t))
    ensures Inv(Next(m, Claim(t)))
  {
    var n := Next(m, Claim(t));
    assert CallerOk(m, t);
    assert FlightOk(m, m.callers[t].flight);
    forall f ensures FlightOk(n, f) { assert FlightOk(m, f); }
    forall u ensures CallerOk(n, u) { assert CallerOk(m, u); }
    forall i | 0 <= i < |n.log| ensures LoggedOk(n, n.log[i]) { assert LoggedOk(m, m.log[i]); }
  }

  lemma StartKeeps(m: Machine, t: nat)
    requires Inv(m) && Enabled(m, Start(t))
    ensures Inv(Next(m, Start(t)))
  {
    var n := Next(m, Start(t));
    forall f ensures FlightOk(n, f) { assert FlightOk(m, f); }
    forall u ensures CallerOk(n, u) { assert CallerOk(m, u); }
    forall i | 0 <= i < |n.log| ensures LoggedOk(n, n.log[i]) { assert LoggedOk(m, m.log[i]); }
  }

  lemma EndKeeps(m: Machine, t: nat, e: Ending)
    requires Inv(m) && Enabled(m, End(t, e)) && Spoken(End(t, e))
    ensures Inv(Next(m, End(t, e)))
  {
    var n := Next(m, End(t, e));
    forall f ensures FlightOk(n, f) { assert FlightOk(m, f); }
    forall u ensures CallerOk(n, u) { assert CallerOk(m, u); }
    forall i | 0 <= i < |n.log| ensures LoggedOk(n, n.log[i]) { assert LoggedOk(m, m.log[i]); }
  }

  lemma ReportKeeps(m: Machine, t: nat)
    requires Inv(m) && Enabled(m, Report(t))
    ensures Inv(Next(m, Report(t)))
  {
    var n := Next(m, Report(t));
    var c := m.callers[t];
    assert CallerOk(m, t);
    assert FlightOk(m, c.flight);
    forall f ensures FlightOk(n, f) { assert FlightOk(m, f); }
    forall u ensures CallerOk(n, u) { assert CallerOk(m, u); }
    forall i | 0 <= i < |m.log| ensures LoggedOk(n, m.log[i]) && m.log[i].0 != c.id {
      assert LoggedOk(m, m.log[i]);
    }
  }

  lemma EraseKeeps(m: Machine, t: nat)
    requires Inv(m) && Enabled(m, Erase(t))
    ensures Inv(Next(m, Erase(t)))
  {
    var n := Next(m, Erase(t));
    assert CallerOk(m, t);
    assert FlightOk(m, m.callers[t].flight);
    forall f ensures FlightOk(n, f) { assert FlightOk(m, f); }
    forall u ensures CallerOk(n, u) { assert CallerOk(m, u); }
    forall i | 0 <= i < |n.log| ensures LoggedOk(n, n.log[i]) { assert LoggedOk(m, m.log[i]); }
  }

  lemma ReturnKeeps(m: Machine, t: nat)
    requires Inv(m) && Enabled(m, Return(t))
    ensures Inv(Next(m, Return(t)))
  {
    var n := Next(m, Return(t));
    assert CallerOk(m, t);
    assert FlightOk(m, m.callers[t].flight);
    forall f ensures FlightOk(n, f) { assert FlightOk(m, f); }
    forall u ensures CallerOk(n, u) { assert CallerOk(m, u); }
    forall i | 0 <= i < |n.log| ensures LoggedOk(n, n.log[i]) { assert LoggedOk(m, m.log[i]); }
  }

  lemma NextKeeps(m: Machine, a: Action)
    requires Inv(m) && Enabled(m, a) && Spoken(a)
    ensures Inv(Next(m, a))
  {
    hide Inv, Next, Enabled;
    match a
    case Call(id) => CallKeeps(m, id);
    case Look(t) => LookKeeps(m, t);
    case Claim(t) => ClaimKeeps(m, t);
    case Start(t) => StartKeeps(m, t);
    case End(t, e) => EndKeeps(m, t, e);
    case Report(t) => ReportKeeps(m, t);
    case Erase(t) => EraseKeeps(m, t);
    case Return(t) => ReturnKeeps(m, t);
  }

  // ---- runs -----------------------------------------------------------------------------

  /** Where the steps `run` lead from an idle catalog, if all of them are possible. */
  function After(run: seq<Action>): Option<Machine> {
    if run == [] then Some(IDLE)
    else
      match After(run[..|run| - 1])
      case None => None
      case Some(m) => if Enabled(m, run[|run| - 1]) then Some(Next(m, run[|run| - 1])) else None
  }

  predicate AllSpoken(run: seq<Action>) {
    forall i :: 0 <= i < |run| ==> Spoken(run[i])
  }

  lemma {:induction false} RunKeeps(run: seq<Action>)
    requires AllSpoken(run) && After(run).Some?
    ensures Inv(After(run).value)
  {
    if run != [] {
      hide Inv, Next, Enabled, Spoken;
      var init := run[..|run| - 1];
      RunKeeps(init);
      NextKeeps(After(init).value, run[|run| - 1]);
    }
  }

  /** Two callers of the same key that have both returned an identifier. */
  predicate BothGiven(m: Machine, t: nat, u: nat) {
    && t < |m.callers| && u < |m.callers| && m.callers[t].pc.Gave? && m.callers[u].pc.Gave?
    && m.callers[t].id == m.callers[u].id
  }

  /** At any moment of any interleaving: for each key at most one producer is at work; at most
      one has ever succeeded; every caller that returned got what that one produced; and a
      caller that waits has a flight that is done, or whose owner is still producing. */
  lemma SingleFlightSafe(run: seq<Action>, m: Machine)
    requires AllSpoken(run) && After(run) == Some(m)
    ensures forall t, u :: 0 <= t < u < |m.callers| && Producing(m.callers[t].pc) && Producing(m.callers[u].pc) ==>
              m.callers[t].id != m.callers[u].id
    ensures forall i, j :: 0 <= i < j < |m.log| ==> m.log[i].0 != m.log[j].0
    ensures forall t :: 0 <= t < |m.callers| && m.callers[t].pc.Gave? ==> (m.callers[t].id, m.callers[t].pc.id) in m.log
    ensures forall t, u :: 0 <= t < u < |m.callers| && BothGiven(m, t, u) ==> m.callers[t].pc.id == m.callers[u].pc.id
    ensures forall t :: 0 <= t < |m.callers| && m.callers[t].pc.Waiting? ==> Attended(m, m.callers[t].flight)
  {
    RunKeeps(run);
    forall t, u | 0 <= t < u < |m.callers| && Producing(m.callers[t].pc) && Producing(m.callers[u].pc)
      ensures m.callers[t].id != m.callers[u].id
    {
      OneProducer(m, t, u);
    }
    forall t | 0 <= t < |m.callers|
      ensures m.callers[t].pc.Gave? ==> (m.callers[t].id, m.callers[t].pc.id) in m.log
      ensures m.callers[t].pc.Waiting? ==> Attended(m, m.callers[t].flight)
    {
      assert CallerOk(m, t);
      assert FlightOk(m, m.callers[t].flight);
    }
    forall t, u | 0 <= t < u < |m.callers| && BothGiven(m, t, u)
      ensures m.callers[t].pc.id == m.callers[u].pc.id
    {
      SameGift(m, t, u);
    }
  }

  /** The flight is done, or its owner is producing. */
  ghost predicate Attended(m: Machine, f: nat) {
    f < |m.objects|
    && (m.objects[f].done || exists u :: 0 <= u < |m.callers| && m.callers[u].flight == f && Producing(m.callers[u].pc))
  }

  lemma OneProducer(m: Machine, t: nat, u: nat)
    requires Inv(m) && t < |m.callers| && u < |m.callers| && t != u
    requires Producing(m.callers[t].pc) && Producing(m.callers[u].pc)
    ensures m.callers[t].id != m.callers[u].id
  {
    assert CallerOk(m, t) && CallerOk(m, u);
    assert FlightOk(m, m.callers[t].flight) && FlightOk(m, m.callers[u].flight);
  }

  lemma SameGift(m: Machine, t: nat, u: nat)
    requires Inv(m) && t < |m.callers| && u < |m.callers|
    requires m.callers[t].pc.Gave? && m.callers[u].pc.Gave? && m.callers[t].id == m.callers[u].id
    ensures m.callers[t].pc.id == m.callers[u].pc.id
  {
    assert CallerOk(m, t) && CallerOk(m, u);
    var i :| 0 <= i < |m.log| && m.log[i] == (m.callers[t].id, m.callers[t].pc.id);
    var j :| 0 <= j < |m.log| && m.log[j] == (m.callers[u].id, m.callers[u].pc.id);
    assert i == j;
  }

  // ---- progress -------------------------------------------------------------------------

  predicate Over(pc: Pc) { pc.Gave? || pc.Failed? }

  /** As long as someone has not returned, someone can take a step. */
  lemma NoDeadlock(run: seq<Action>, m: Machine, t: nat) returns (a: Action)
    requires AllSpoken(run) && After(run) == Some(m) && t < |m.callers| && !Over(m.callers[t].pc)
    ensures !a.Call? && Enabled(m, a)
  {
    RunKeeps(run);
    assert CallerOk(m, t);
    assert FlightOk(m, m.callers[t].flight);
    var u := t;
    if m.callers[t].pc.Waiting? && !m.objects[m.callers[t].flight].done {
      u := m.objects[m.callers[t].flight].owner.value;
      assert CallerOk(m, u);
    }
    a := match m.callers[u].pc
      case Looking => Look(u)
      case Claiming => Claim(u)
      case Starting => Start(u)
      case Running => End(u, Committed(0))
      case Ended(_) => Report(u)
      case Erasing => Erase(u)
      case _ => Return(u);
  }

  /** The steps a caller may still take. */
  function Rank(pc: Pc): nat {
    match pc
    case Looking => 7 case Claiming => 6 case Starting => 5 case Running => 4 case Ended(_) => 3 case Erasing => 2
    case Waiting => 1 case Gave(_) => 0 case Failed => 0
  }

  function Work(callers: seq<Caller>): nat {
    if callers == [] then 0 else Work(callers[..|callers| - 1]) + Rank(callers[|callers| - 1].pc)
  }

  lemma {:induction false} WorkUpdate(callers: seq<Caller>, t: nat, c: Caller)
    requires t < |callers|
    ensures Work(callers[t := c]) == Work(callers) - Rank(callers[t].pc) + Rank(c.pc)
  {
    hide Rank;
    var init := callers[..|callers| - 1];
    if t < |init| {
      WorkUpdate(init, t, c);
      assert callers[t := c][..|init|] == init[t := c];
    } else {
      assert callers[t := c][..|init|] == init;
    }
  }

  lemma StepWorks(m: Machine, a: Action)
    requires Enabled(m, a) && !a.Call?
    ensures Work(Next(m, a).callers) < Work(m.callers)
  {
    var t := match a case Look(t) => t case Claim(t) => t case Start(t) => t case End(t, _) => t case Report(t) => t
      case Erase(t) => t case Return(t) => t case Call(_) => 0;
    WorkUpdate(m.callers, t, Next(m, a).callers[t]);
    hide Work;
  }

  predicate NoCalls(run: seq<Action>) {
    forall i :: 0 <= i < |run| ==> !run[i].Call?
  }

  /** With no new callers, at most seven steps for each caller remain before all have returned:
      together with `NoDeadlock`, every run ends with everyone served. */
  lemma {:induction false} RunsEnd(run: seq<Action>, more: seq<Action>)
    requires After(run).Some? && NoCalls(more) && After(run + more).Some?
    ensures |more| + Work(After(run + more).value.callers) <= Work(After(run).value.callers)
    decreases |more|
  {
    if more == [] {
      assert run + more == run;
    } else {
      hide Work, Next, Enabled;
      var init, last := more[..|more| - 1], more[|more| - 1];
      assert (run + more)[..|run + more| - 1] == run + init;
      RunsEnd(run, init);
      StepWorks(After(run + init).value, last);
    }
  }

  // ---- the empty message ----------------------------------------------------------------

  /** A failure is reported as a failure exactly when its message is not empty: with an empty one
      the callers are handed the zero identifier as if it had been built. */
  lemma EmptyMessageIsSuccess(run: seq<Action>, m: Machine, f: nat, message: string)
    requires AllSpoken(run) && After(run) == Some(m) && f < |m.objects| && !m.objects[f].done
    ensures Meet(WithError(m.objects[f], message)).Threw? <==> message != ""
    ensures message == "" ==> Meet(WithError(m.objects[f], message)) == Returned(0)
  {
    RunKeeps(run);
    assert FlightOk(m, f);
  }

  lemma StepTo(run: seq<Action>, m: Machine, a: Action)
    requires After(run) == Some(m) && Enabled(m, a)
    ensures After(run + [a]) == Some(Next(m, a))
  {
    assert (run + [a])[..|run|] == run;
  }

  /** The first caller's producer is at work. */
  lemma OneRuns() returns (run: seq<Action>, m: Machine)
    ensures After(run) == Some(m)
    ensures m == Machine(map[7 := 0], [Flight(7, true, false, 0, "", Some(0))], [Caller(7, Running, 0)], [])
  {
    hide After;
    AfterNothing();
    StepTo([], IDLE, Call(7));
    run, m := [] + [Call(7)], Next(IDLE, Call(7));
    StepTo(run, m, Look(0));
    run, m := run + [Look(0)], Next(m, Look(0));
    StepTo(run, m, Claim(0));
    run, m := run + [Claim(0)], Next(m, Claim(0));
    StepTo(run, m, Start(0));
    run, m := run + [Start(0)], Next(m, Start(0));
  }

  /** It raises an exception without a message: the caller is handed the zero identifier, and
      the table is empty again. */
  lemma ZeroForOne() returns (run: seq<Action>, m: Machine)
    ensures After(run) == Some(m)
    ensures m == Machine(map[], [Flight(7, true, true, 0, "", Some(0))], [Caller(7, Gave(0), 0)], [])
  {
    hide After;
    run, m := OneRuns();
    StepTo(run, m, End(0, Raised("")));
    run, m := run + [End(0, Raised(""))], Next(m, End(0, Raised("")));
    StepTo(run, m, Report(0));
    run, m := run + [Report(0)], Next(m, Report(0));
    StepTo(run, m, Erase(0));
    run, m := run + [Erase(0)], Next(m, Erase(0));
    assert m.flights == map[];
    StepTo(run, m, Return(0));
    run, m := run + [Return(0)], Next(m, Return(0));
  }

  lemma AfterNothing()
    ensures After([]) == Some(IDLE)
  {
  }

  /** A second caller of the same key starts another production. */
  lemma TwoRuns() returns (run: seq<Action>, m: Machine)
    ensures After(run) == Some(m)
    ensures m == Machine(map[7 := 1], [Flight(7, true, true, 0, "", Some(0)), Flight(7, true, false, 0, "", Some(1))],
                         [Caller(7, Gave(0), 0), Caller(7, Running, 1)], [])
  {
    hide After;
    run, m := ZeroForOne();
    StepTo(run, m, Call(7));
    run, m := run + [Call(7)], Next(m, Call(7));
    StepTo(run, m, Look(1));
    run, m := run + [Look(1)], Next(m, Look(1));
    StepTo(run, m, Claim(1));
    run, m := run + [Claim(1)], Next(m, Claim(1));
    StepTo(run, m, Start(1));
    run, m := run + [Start(1)], Next(m, Start(1));
  }

  /** With one empty message, two callers of the same key are given different identifiers. */
  lemma EmptyMessageBreaksAgreement()
    ensures exists run, m :: After(run) == Some(m) && |m.callers| == 2 && m.callers[0].id == m.callers[1].id
              && m.callers[0].pc == Gave(0) && m.callers[1].pc == Gave(5)
  {
    hide After;
    var run, m := TwoRuns();
    StepTo(run, m, End(1, Committed(5)));
    run, m := run + [End(1, Committed(5))], Next(m, End(1, Committed(5)));
    StepTo(run, m, Report(1));
    run, m := run + [Report(1)], Next(m, Report(1));
    StepTo(run, m, Return(1));
    run, m := run + [Return(1)], Next(m, Return(1));
    assert After(run) == Some(m) && m.callers[0].pc == Gave(0) && m.callers[1].pc == Gave(5);
  }
}
