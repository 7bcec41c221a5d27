/** A failed build makes way for another: what the table of flights holds at any moment of any
    interleaving, and when a caller's own producer can still run. */
module Retries {
  import opened Types
  import opened SingleFlight

  /** The table leads from the key of flight `f` to `f`. */
  predicate Listed(m: Machine, f: nat)
    requires f < |m.objects|
  {
    m.objects[f].id in m.flights && m.flights[m.objects[f].id] == f
  }

  predicate FailedFlight(f: Flight) { f.done && f.error != "" }

  /** The owner of flight `f` has reported on it and has not erased it yet. */
  predicate AboutToErase(m: Machine, f: nat)
    requires f < |m.objects|
  {
    var o := m.objects[f].owner;
    o.Some? && At(m, o.value, Erasing) && m.callers[o.value].flight == f
  }

  // ---- the invariant --------------------------------------------------------------------

  ghost predicate EntryOk(m: Machine, id: Id) {
    id in m.flights ==>
      && m.flights[id] < |m.objects|
      && (FailedFlight(m.objects[m.flights[id]]) ==> AboutToErase(m, m.flights[id]))
      && (forall f :: 0 <= f < |m.objects| && m.objects[f].id == id ==> f <= m.flights[id])
  }

  ghost predicate EraserOk(m: Machine, t: nat) {
    At(m, t, Erasing) ==>
      var c := m.callers[t];
      c.id in m.flights && m.flights[c.id] == c.flight && c.flight < |m.objects| && m.objects[c.flight].owner == Some(t)
  }

  ghost predicate Tended(m: Machine) {
    (forall id :: EntryOk(m, id)) && (forall t :: EraserOk(m, t))
  }

  lemma CallTends(m: Machine, id: Id)
    requires Inv(m) && Tended(m)
    ensures Tended(Next(m, Call(id)))
  {
    hide Inv;
    var n := Next(m, Call(id));
    forall i ensures EntryOk(n, i) { assert EntryOk(m, i); }
    forall u ensures EraserOk(n, u) { assert EraserOk(m, u); }
  }

  lemma LookTends(m: Machine, t: nat)
    requires Inv(m) && Tended(m) && Enabled(m, Look(t))
    ensures Tended(Next(m, Look(t)))
  {
    var n := Next(m, Look(t));
    forall i ensures EntryOk(n, i) { assert EntryOk(m, i); }
    forall u ensures EraserOk(n, u) { assert EraserOk(m, u); }
  }

  lemma ClaimTends(m: Machine, t: nat)
    requires Inv(m) && Tended(m) && Enabled(m, Claim(t))
    ensures Tended(Next(m, Claim(t)))
  {
    var n := Next(m, Claim(t));
    assert CallerOk(m, t) && FlightOk(m, m.callers[t].flight);
    forall i ensures EntryOk(n, i) { assert EntryOk(m, i); }
    forall u ensures EraserOk(n, u) { assert EraserOk(m, u) && CallerOk(m, u); }
  }

  /** A step that only moves one caller on, not to or from erasing. */
  lemma MoveTends(m: Machine, t: nat, pc: Pc)
    requires Tended(m) && t < |m.callers| && !m.callers[t].pc.Erasing? && !pc.Erasing?
    ensures Tended(Goto(m, t, pc))
  {
    var n := Goto(m, t, pc);
    forall i ensures EntryOk(n, i) { assert EntryOk(m, i); }
    forall u ensures EraserOk(n, u) { assert EraserOk(m, u); }
  }

  lemma ReportTends(m: Machine, t: nat)
    requires Inv(m) && Tended(m) && Enabled(m, Report(t))
    ensures Tended(Next(m, Report(t)))
  {
    var n := Next(m, Report(t));
    assert CallerOk(m, t) && FlightOk(m, m.callers[t].flight);
    forall i ensures EntryOk(n, i) { assert EntryOk(m, i); }
    forall u ensures EraserOk(n, u) { assert EraserOk(m, u); }
  }

  lemma EraseTends(m: Machine, t: nat)
    requires Inv(m) && Tended(m) && Enabled(m, Erase(t))
    ensures Tended(Next(m, Erase(t)))
  {
    var n := Next(m, Erase(t));
    assert CallerOk(m, t) && EraserOk(m, t);
    forall i ensures EntryOk(n, i) { assert EntryOk(m, i); }
    forall u ensures EraserOk(n, u) { assert EraserOk(m, u); }
  }

  lemma NextTends(m: Machine, a: Action)
    requires Inv(m) && Tended(m) && Enabled(m, a)
    ensures Tended(Next(m, a))
  {
    hide Inv, Tended;
    match a
    case Call(id) => CallTends(m, id);
    case Look(t) => LookTends(m, t);
    case Claim(t) => ClaimTends(m, t);
    case Start(t) => MoveTends(m, t, Running);
    case End(t, e) => MoveTends(m, t, Ended(e));
    case Report(t) => ReportTends(m, t);
    case Erase(t) => EraseTends(m, t);
    case Return(t) => MoveTends(m, t, Next(m, a).callers[t].pc);
  }

  lemma {:induction false} RunTends(run: seq<Action>)
    requires AllSpoken(run) && After(run).Some?
    ensures Tended(After(run).value)
  {
    if run == [] {
    } else {
      hide Inv, Tended, Next, Enabled, Spoken;
      var init := run[..|run| - 1];
      RunTends(init);
      RunKeeps(init);
      NextTends(After(init).value, run[|run| - 1]);
    }
  }

  // ---- the table ------------------------------------------------------------------------

  /** At any moment of any interleaving a flight is in the table exactly while it is undecided,
      or once it has succeeded, or when it has failed and its owner is still about to erase it;
      every entry leads to a flight of its key, and to the newest one. */
  lemma TableIsExact(run: seq<Action>, m: Machine)
    requires AllSpoken(run) && After(run) == Some(m)
    ensures forall f :: 0 <= f < |m.objects| ==>
              (Listed(m, f) <==> !m.objects[f].done || m.objects[f].error == "" || AboutToErase(m, f))
    ensures forall id :: id in m.flights ==> m.flights[id] < |m.objects| && m.objects[m.flights[id]].id == id
    ensures forall f :: 0 <= f < |m.objects| && m.objects[f].id in m.flights ==> f <= m.flights[m.objects[f].id]
  {
    RunKeeps(run);
    RunTends(run);
    forall f | 0 <= f < |m.objects|
      ensures Listed(m, f) <==> !m.objects[f].done || m.objects[f].error == "" || AboutToErase(m, f)
      ensures m.objects[f].id in m.flights ==> f <= m.flights[m.objects[f].id]
    {
      assert FlightOk(m, f) && EntryOk(m, m.objects[f].id);
      if AboutToErase(m, f) { assert EraserOk(m, m.objects[f].owner.value) && CallerOk(m, m.objects[f].owner.value); }
    }
  }

  /** The flight has failed, and its owner has gone on to wait or has returned. */
  predicate Abandoned(m: Machine, f: nat) {
    && f < |m.objects| && FailedFlight(m.objects[f])
    && var o := m.objects[f].owner;
       o.Some? && o.value < |m.callers| && (m.callers[o.value].pc.Waiting? || Over(m.callers[o.value].pc))
  }

  lemma StaysAbandoned(m: Machine, a: Action, f: nat)
    requires Inv(m) && Enabled(m, a) && Abandoned(m, f)
    ensures Abandoned(Next(m, a), f) && Next(m, a).objects[f].id == m.objects[f].id
  {
    assert FlightOk(m, f);
  }

  lemma {:induction false} RunStaysAbandoned(run: seq<Action>, more: seq<Action>, f: nat)
    requires AllSpoken(run + more) && After(run).Some? && Abandoned(After(run).value, f) && After(run + more).Some?
    ensures Abandoned(After(run + more).value, f)
    ensures After(run + more).value.objects[f].id == After(run).value.objects[f].id
    decreases |more|
  {
    if more == [] {
      assert run + more == run;
    } else {
      hide Inv, Abandoned, Next, Enabled, Spoken;
      var init, last := more[..|more| - 1], more[|more| - 1];
      assert (run + more)[..|run + more| - 1] == run + init;
      RunStaysAbandoned(run, init, f);
      RunKeeps(run + init);
      StaysAbandoned(After(run + init).value, last, f);
    }
  }

  /** Once the owner of a failed flight has gone on, no entry of the table leads to the flight,
      then or ever after, and every caller of its key who looks is given a newer one; when the
      key has no entry, a fresh one that nobody has claimed. */
  lemma FailedMakesWay(run: seq<Action>, more: seq<Action>, f: nat, n: Machine)
    requires AllSpoken(run + more) && After(run).Some? && Abandoned(After(run).value, f) && After(run + more) == Some(n)
    ensures forall id :: id in n.flights ==> n.flights[id] != f
    ensures forall t :: 0 <= t < |n.callers| && At(n, t, Looking) && n.callers[t].id == After(run).value.objects[f].id ==>
              && Enabled(n, Look(t)) && Next(n, Look(t)).callers[t].flight > f
              && (n.callers[t].id !in n.flights ==> !Next(n, Look(t)).objects[Next(n, Look(t)).callers[t].flight].claimed)
  {
    hide After, AllSpoken;
    RunStaysAbandoned(run, more, f);
    TableIsExact(run + more, n);
    assert !Listed(n, f);
  }

  // ---- a caller's own producer ----------------------------------------------------------

  /** Some production of `id` has succeeded, reported or not. */
  ghost predicate Built(m: Machine, id: Id) {
    || (exists i :: 0 <= i < |m.log| && m.log[i].0 == id)
    || (exists u :: 0 <= u < |m.callers| && m.callers[u].id == id && m.callers[u].pc.Ended? && m.callers[u].pc.e.Committed?)
  }

  /** A caller who looks for `id` would be the first to claim the flight. */
  predicate Vacant(m: Machine, id: Id) {
    id in m.flights ==> m.flights[id] < |m.objects| && !m.objects[m.flights[id]].claimed
  }

  /** `more` leads on to a moment at which the producer of caller `t` runs. */
  ghost predicate Runs(run: seq<Action>, more: seq<Action>, t: nat) {
    AllSpoken(more) && After(run + more).Some? && At(After(run + more).value, t, Running)
  }

  lemma Onward(run: seq<Action>, more: seq<Action>, m: Machine, a: Action)
    requires After(run + more) == Some(m) && Enabled(m, a) && AllSpoken(more) && Spoken(a)
    ensures After(run + (more + [a])) == Some(Next(m, a)) && AllSpoken(more + [a])
  {
    hide After;
    StepTo(run + more, m, a);
    assert run + more + [a] == run + (more + [a]);
  }

  lemma VacantRuns(run: seq<Action>, more: seq<Action>, m: Machine, t: nat) returns (further: seq<Action>)
    requires After(run + more) == Some(m) && AllSpoken(more) && At(m, t, Looking) && Vacant(m, m.callers[t].id)
    ensures Runs(run, further, t)
  {
    hide After, AllSpoken;
    Onward(run, more, m, Look(t));
    var n := Next(m, Look(t));
    further := more + [Look(t)];
    Onward(run, further, n, Claim(t));
    further, n := further + [Claim(t)], Next(n, Claim(t));
    Onward(run, further, n, Start(t));
    further := further + [Start(t)];
  }

  /** Caller `t` still looks for `id`, and the flight in the table is that of `u`. */
  predicate Behind(m: Machine, t: nat, u: nat, id: Id) {
    && At(m, t, Looking) && m.callers[t].id == id && u < |m.callers| && u != t && m.callers[u].id == id
    && m.callers[u].flight < |m.objects| && id in m.flights && m.flights[id] == m.callers[u].flight
  }

  /** The owner of the flight in the table fails and erases it. */
  lemma ErasingRuns(run: seq<Action>, more: seq<Action>, m: Machine, t: nat, u: nat, id: Id) returns (further: seq<Action>)
    requires After(run + more) == Some(m) && AllSpoken(more) && Behind(m, t, u, id) && At(m, u, Erasing)
    ensures Runs(run, further, t)
  {
    hide After, AllSpoken, Runs;
    Onward(run, more, m, Erase(u));
    further := VacantRuns(run, more + [Erase(u)], Next(m, Erase(u)), t);
  }

  lemma EndedRuns(run: seq<Action>, more: seq<Action>, m: Machine, t: nat, u: nat, id: Id) returns (further: seq<Action>)
    requires After(run + more) == Some(m) && AllSpoken(more) && Behind(m, t, u, id)
    requires m.callers[u].pc.Ended? && !m.callers[u].pc.e.Committed?
    ensures Runs(run, further, t)
  {
    hide After, AllSpoken, Runs;
    Onward(run, more, m, Report(u));
    further := ErasingRuns(run, more + [Report(u)], Next(m, Report(u)), t, u, id);
  }

  lemma RunningRuns(run: seq<Action>, more: seq<Action>, m: Machine, t: nat, u: nat, id: Id) returns (further: seq<Action>)
    requires After(run + more) == Some(m) && AllSpoken(more) && Behind(m, t, u, id) && At(m, u, Running)
    ensures Runs(run, further, t)
  {
    hide After, AllSpoken, Runs;
    var a := End(u, RaisedUnknown);
    Onward(run, more, m, a);
    further := EndedRuns(run, more + [a], Next(m, a), t, u, id);
  }

  lemma StartingRuns(run: seq<Action>, more: seq<Action>, m: Machine, t: nat, u: nat, id: Id) returns (further: seq<Action>)
    requires After(run + more) == Some(m) && AllSpoken(more) && Behind(m, t, u, id) && At(m, u, Starting)
    ensures Runs(run, further, t)
  {
    hide After, AllSpoken, Runs;
    Onward(run, more, m, Start(u));
    further := RunningRuns(run, more + [Start(u)], Next(m, Start(u)), t, u, id);
  }

  lemma UnbuiltRuns(run: seq<Action>, m: Machine, t: nat) returns (more: seq<Action>)
    requires Inv(m) && Tended(m) && After(run) == Some(m) && At(m, t, Looking) && !Built(m, m.callers[t].id)
    ensures Runs(run, more, t)
  {
    hide After, Runs, Tended;
    var id := m.callers[t].id;
    assert run + [] == run;
    if Vacant(m, id) {
      more := VacantRuns(run, [], m, t);
    } else {
      var u := Holder(m, id);
      assert Behind(m, t, u, id);
      match m.callers[u].pc
      case Starting => more := StartingRuns(run, [], m, t, u, id);
      case Running => more := RunningRuns(run, [], m, t, u, id);
      case Ended(_) => more := EndedRuns(run, [], m, t, u, id);
      case Erasing => more := ErasingRuns(run, [], m, t, u, id);
    }
  }

  lemma SuccessIsBuilt(m: Machine, f: nat)
    requires Inv(m) && f < |m.objects|
    ensures Succeeded(m.objects[f]) ==> Built(m, m.objects[f].id)
  {
    assert FlightOk(m, f);
    if Succeeded(m.objects[f]) {
      var i :| 0 <= i < |m.log| && m.log[i] == (m.objects[f].id, m.objects[f].result);
      assert m.log[i].0 == m.objects[f].id;
    }
  }

  /** Whoever holds the claimed flight of an unbuilt key. */
  lemma Holder(m: Machine, id: Id) returns (u: nat)
    requires Inv(m) && Tended(m) && !Built(m, id) && !Vacant(m, id)
    ensures u < |m.callers| && m.callers[u].id == id && (Producing(m.callers[u].pc) || m.callers[u].pc.Erasing?)
    ensures id in m.flights && m.callers[u].flight == m.flights[id]
  {
    var f := m.flights[id];
    assert EntryOk(m, id) && FlightOk(m, f);
    SuccessIsBuilt(m, f);
    u := m.objects[f].owner.value;
    assert CallerOk(m, u);
  }

  lemma BuiltStays(m: Machine, a: Action, id: Id)
    requires Enabled(m, a) && Built(m, id)
    ensures Built(Next(m, a), id)
  {
    var n := Next(m, a);
    if i :| 0 <= i < |m.log| && m.log[i].0 == id {
      assert n.log[i].0 == id;
    } else {
      var u :| 0 <= u < |m.callers| && m.callers[u].id == id && m.callers[u].pc.Ended? && m.callers[u].pc.e.Committed?;
      if a == Report(u) { assert n.log[|m.log|].0 == id; } else { assert n.callers[u] == m.callers[u]; }
    }
  }

  lemma {:induction false} RunBuiltStays(run: seq<Action>, more: seq<Action>, id: Id)
    requires After(run).Some? && Built(After(run).value, id) && After(run + more).Some?
    ensures Built(After(run + more).value, id)
    decreases |more|
  {
    if more == [] {
      assert run + more == run;
    } else {
      hide Built, Next, Enabled;
      var init, last := more[..|more| - 1], more[|more| - 1];
      assert (run + more)[..|run + more| - 1] == run + init;
      RunBuiltStays(run, init, id);
      BuiltStays(After(run + init).value, last, id);
    }
  }

  /** Nobody else produces what is built. */
  lemma BuiltNotRunning(m: Machine, t: nat, id: Id)
    requires Inv(m) && Built(m, id) && t < |m.callers| && m.callers[t].id == id
    ensures !m.callers[t].pc.Running?
  {
    if i :| 0 <= i < |m.log| && m.log[i].0 == id {
      LoggedNotProducing(m, t, i);
    } else {
      var u :| 0 <= u < |m.callers| && m.callers[u].id == id && m.callers[u].pc.Ended? && m.callers[u].pc.e.Committed?;
      EndedAlone(m, t, u);
    }
  }

  lemma LoggedNotProducing(m: Machine, t: nat, i: nat)
    requires Inv(m) && t < |m.callers| && i < |m.log| && m.log[i].0 == m.callers[t].id
    ensures !Producing(m.callers[t].pc)
  {
    assert LoggedOk(m, m.log[i]) && CallerOk(m, t) && FlightOk(m, m.callers[t].flight);
  }

  lemma EndedAlone(m: Machine, t: nat, u: nat)
    requires Inv(m) && t < |m.callers| && u < |m.callers| && m.callers[u].pc.Ended? && m.callers[t].id == m.callers[u].id
    ensures !m.callers[t].pc.Running?
  {
    assert CallerOk(m, t) && CallerOk(m, u);
    assert FlightOk(m, m.callers[t].flight) && FlightOk(m, m.callers[u].flight);
  }

  lemma StepSameKey(m: Machine, a: Action, t: nat)
    requires Enabled(m, a) && t < |m.callers|
    ensures t < |Next(m, a).callers| && Next(m, a).callers[t].id == m.callers[t].id
  {
  }

  lemma {:induction false} SameKey(run: seq<Action>, more: seq<Action>, t: nat)
    requires After(run).Some? && t < |After(run).value.callers| && After(run + more).Some?
    ensures t < |After(run + more).value.callers| && After(run + more).value.callers[t].id == After(run).value.callers[t].id
    decreases |more|
  {
    if more == [] {
      assert run + more == run;
    } else {
      hide Next, Enabled;
      var init, last := more[..|more| - 1], more[|more| - 1];
      assert (run + more)[..|run + more| - 1] == run + init;
      SameKey(run, init, t);
      StepSameKey(After(run + init).value, last, t);
    }
  }

  /** A caller who is about to look can still come to run its own producer exactly as long as no
      production of its key has succeeded. So failures, however many, keep no later caller from
      trying again. */
  lemma OwnProducerRunsIff(run: seq<Action>, m: Machine, t: nat)
    requires AllSpoken(run) && After(run) == Some(m) && At(m, t, Looking)
    ensures (exists more :: Runs(run, more, t)) <==> !Built(m, m.callers[t].id)
  {
    hide Inv, Built, Tended, After;
    RunKeeps(run);
    RunTends(run);
    if !Built(m, m.callers[t].id) {
      var more := UnbuiltRuns(run, m, t);
    } else if more :| Runs(run, more, t) {
      RunKeeps(run + more);
      RunBuiltStays(run, more, m.callers[t].id);
      SameKey(run, more, t);
      BuiltNotRunning(After(run + more).value, t, m.callers[t].id);
    }
  }

  // ---- what callers return --------------------------------------------------------------

  ghost predicate ReturnOk(m: Machine, t: nat) {
    t < |m.callers| && Over(m.callers[t].pc) ==>
      var c := m.callers[t];
      && c.flight < |m.objects| && m.objects[c.flight].id == c.id && m.objects[c.flight].done
      && (c.pc.Failed? <==> m.objects[c.flight].error != "")
      && (c.pc.Gave? ==> c.pc.id == m.objects[c.flight].result)
  }

  lemma StepReturns(m: Machine, a: Action, t: nat)
    requires Inv(m) && Enabled(m, a) && ReturnOk(m, t)
    ensures ReturnOk(Next(m, a), t)
  {
    assert CallerOk(m, t);
    if t < |m.callers| { assert FlightOk(m, m.callers[t].flight); }
  }

  lemma {:induction false} ReturnsAsDecided(run: seq<Action>, t: nat)
    requires AllSpoken(run) && After(run).Some?
    ensures ReturnOk(After(run).value, t)
  {
    if run == [] {
    } else {
      hide Inv, ReturnOk, Next, Enabled, Spoken;
      var init := run[..|run| - 1];
      ReturnsAsDecided(init, t);
      RunKeeps(init);
      StepReturns(After(init).value, run[|run| - 1], t);
    }
  }

  /** In the course of `run`, a producer of `key` ended with `id`. */
  ghost predicate Produced(run: seq<Action>, m: Machine, key: Id, id: Id) {
    exists i, u :: 0 <= i < |run| && 0 <= u < |m.callers| && run[i] == End(u, Committed(id)) && m.callers[u].id == key
  }

  lemma ProducedStays(run: seq<Action>, m: Machine, a: Action, key: Id, id: Id)
    requires Enabled(m, a) && Produced(run, m, key, id)
    ensures Produced(run + [a], Next(m, a), key, id)
  {
    var i, u :| 0 <= i < |run| && 0 <= u < |m.callers| && run[i] == End(u, Committed(id)) && m.callers[u].id == key;
    StepSameKey(m, a, u);
    assert (run + [a])[i] == run[i];
  }

  ghost predicate AllProduced(run: seq<Action>, m: Machine) {
    && (forall i :: 0 <= i < |m.log| ==> Produced(run, m, m.log[i].0, m.log[i].1))
    && (forall u :: 0 <= u < |m.callers| && m.callers[u].pc.Ended? && m.callers[u].pc.e.Committed? ==>
          Produced(run, m, m.callers[u].id, m.callers[u].pc.e.id))
  }

  lemma StepProduced(run: seq<Action>, m: Machine, a: Action)
    requires Enabled(m, a) && AllProduced(run, m)
    ensures AllProduced(run + [a], Next(m, a))
  {
    hide Produced;
    var n := Next(m, a);
    forall i | 0 <= i < |n.log| ensures Produced(run + [a], n, n.log[i].0, n.log[i].1) {
      ProducedStays(run, m, a, n.log[i].0, n.log[i].1);
    }
    forall u | 0 <= u < |n.callers| && n.callers[u].pc.Ended? && n.callers[u].pc.e.Committed?
      ensures Produced(run + [a], n, n.callers[u].id, n.callers[u].pc.e.id)
    {
      if a == End(u, n.callers[u].pc.e) {
        JustProduced(run, m, u, n.callers[u].pc.e.id);
      } else {
        assert n.callers[u] == m.callers[u];
        ProducedStays(run, m, a, n.callers[u].id, n.callers[u].pc.e.id);
      }
    }
  }

  lemma JustProduced(run: seq<Action>, m: Machine, u: nat, id: Id)
    requires Enabled(m, End(u, Committed(id)))
    ensures Produced(run + [End(u, Committed(id))], Next(m, End(u, Committed(id))), m.callers[u].id, id)
  {
    assert (run + [End(u, Committed(id))])[|run|] == End(u, Committed(id));
  }

  lemma {:induction false} RunProduced(run: seq<Action>)
    requires After(run).Some?
    ensures AllProduced(run, After(run).value)
  {
    if run == [] {
    } else {
      hide AllProduced, Next, Enabled;
      var init := run[..|run| - 1];
      RunProduced(init);
      StepProduced(init, After(init).value, run[|run| - 1]);
      assert run == init + [run[|run| - 1]];
    }
  }

  /** Every caller that has returned goes by what became of its flight: it fails exactly when the
      flight carries an error, and otherwise it is given an identifier that a producer of its
      own key ended with. */
  lemma CallersGetTheirFlight(run: seq<Action>, m: Machine, t: nat)
    requires AllSpoken(run) && After(run) == Some(m) && t < |m.callers| && Over(m.callers[t].pc)
    ensures m.callers[t].flight < |m.objects| && m.objects[m.callers[t].flight].id == m.callers[t].id
    ensures m.callers[t].pc == Failed <==> m.objects[m.callers[t].flight].error != ""
    ensures m.callers[t].pc != Failed ==> m.callers[t].pc.Gave? && Produced(run, m, m.callers[t].id, m.callers[t].pc.id)
  {
    hide After, AllSpoken, Produced;
    ReturnsAsDecided(run, t);
    RunKeeps(run);
    RunProduced(run);
    assert CallerOk(m, t);
    if m.callers[t].pc.Gave? {
      var i :| 0 <= i < |m.log| && m.log[i] == (m.callers[t].id, m.callers[t].pc.id);
    }
  }
}
