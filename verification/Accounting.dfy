/** The counters of the catalog and the object that guards them. */
module Accounting {
  import opened Types

  datatype Counters = Counters(
    logicalArtifacts: int, physicalBacking: int, logicalBytes: int, physicalBytes: int, dedupBytes: int,
    activeReferences: int, buildReservations: int, temporaryBytes: int,
    evictions: int, invalidations: int, supersessions: int)

  const NO_COUNTS := Counters(0, 0, 0, 0, 0, 0, 0, 0, 0, 0, 0)

  /** `is_zero`. */
  predicate IsZero(c: Counters) { c == NO_COUNTS }

  /** The counters whose methods throw rather than let them become negative. */
  predicate NonNegative(c: Counters) {
    && c.logicalBytes >= 0 && c.physicalBytes >= 0 && c.dedupBytes >= 0 && c.activeReferences >= 0
    && c.buildReservations >= 0 && c.temporaryBytes >= 0
  }

  /** A guarded counter after adding `n`, unless that would make it negative. */
  function Guarded(value: int, n: int): (r: Outcome<int>)
    ensures r.Returned? ==> r.value == value + n >= 0
  {
    if value + n < 0 then Threw(NegativeCounter) else Returned(value + n)
  }

  class Accountant {
    var state: Counters

    constructor ()
      ensures state == NO_COUNTS
    {
      state := NO_COUNTS;
    }

    method Reset()
      modifies this
      ensures state == NO_COUNTS
    {
      state := NO_COUNTS;
    }

    method AddLogicalArtifact(n: int)
      modifies this
      ensures state == old(state).(logicalArtifacts := old(state).logicalArtifacts + n)
    {
      state := state.(logicalArtifacts := state.logicalArtifacts + n);
    }

    method AddPhysicalBacking(n: int)
      modifies this
      ensures state == old(state).(physicalBacking := old(state).physicalBacking + n)
    {
      state := state.(physicalBacking := state.physicalBacking + n);
    }

    method AddLogicalBytes(n: int) returns (r: Outcome<()>)
      modifies this
      ensures r == if old(state).logicalBytes + n < 0 then Threw(NegativeCounter) else Returned(())
      ensures state == if r.Threw? then old(state)
                       else old(state).(logicalBytes := old(state).logicalBytes + n)
    {
      var sum :- Guarded(state.logicalBytes, n);
      state := state.(logicalBytes := sum);
      r := Returned(());
    }

    method AddPhysicalBytes(n: int) returns (r: Outcome<()>)
      modifies this
      ensures r == if old(state).physicalBytes + n < 0 then Threw(NegativeCounter) else Returned(())
      ensures state == if r.Threw? then old(state)
                       else old(state).(physicalBytes := old(state).physicalBytes + n)
    {
      var sum :- Guarded(state.physicalBytes, n);
      state := state.(physicalBytes := sum);
      r := Returned(());
    }

    method AddDedupBytes(n: int) returns (r: Outcome<()>)
      modifies this
      ensures r == if old(state).dedupBytes + n < 0 then Threw(NegativeCounter) else Returned(())
      ensures state == if r.Threw? then old(state)
                       else old(state).(dedupBytes := old(state).dedupBytes + n)
    {
      var sum :- Guarded(state.dedupBytes, n);
      state := state.(dedupBytes := sum);
      r := Returned(());
    }

    method AddActiveReference(n: int) returns (r: Outcome<()>)
      modifies this
      ensures r == if old(state).activeReferences + n < 0 then Threw(NegativeCounter) else Returned(())
      ensures state == if r.Threw? then old(state)
                       else old(state).(activeReferences := old(state).activeReferences + n)
    {
      var sum :- Guarded(state.activeReferences, n);
      state := state.(activeReferences := sum);
      r := Returned(());
    }

    method ReserveBuild()
      modifies this
      ensures state == old(state).(buildReservations := old(state).buildReservations + 1)
    {
      state := state.(buildReservations := state.buildReservations + 1);
    }

    method ReleaseBuild() returns (r: Outcome<()>)
      modifies this
      ensures r == if old(state).buildReservations <= 0 then Threw(NoReservation) else Returned(())
      ensures state == if r.Threw? then old(state)
                       else old(state).(buildReservations := old(state).buildReservations - 1)
    {
      if state.buildReservations <= 0 { return Threw(NoReservation); }
      state := state.(buildReservations := state.buildReservations - 1);
      r := Returned(());
    }

    method AddTemporaryBytes(n: int) returns (r: Outcome<()>)
      modifies this
      ensures r == if old(state).temporaryBytes + n < 0 then Threw(NegativeCounter) else Returned(())
      ensures state == if r.Threw? then old(state)
                       else old(state).(temporaryBytes := old(state).temporaryBytes + n)
    {
      var sum :- Guarded(state.temporaryBytes, n);
      state := state.(temporaryBytes := sum);
      r := Returned(());
    }

    method RecordInvalidation()
      modifies this
      ensures state == old(state).(invalidations := old(state).invalidations + 1)
    {
      state := state.(invalidations := state.invalidations + 1);
    }

    method RecordSupersession()
      modifies this
      ensures state == old(state).(supersessions := old(state).supersessions + 1)
    {
      state := state.(supersessions := state.supersessions + 1);
    }
  }
}
