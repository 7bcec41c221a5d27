/** Reuse eligibility: the gates an artifact passes before it may be reused. */
module Reuse {
  import opened Types
  import opened CatalogModel
  import opened Compatibility

  datatype Reason =
    | IntegrityReason | ProvenanceReason | AuthorityReason | LifecycleReason(state: LifecycleState)
    | NotValidatedReason | PlacementReason | CompatReason(dim: Dimension)

  datatype Inputs = Inputs(
    integrityOk: bool, placementAvailable: bool, provenanceValid: bool, authorityCurrent: bool, isFresh: Freshness)

  /** The lifecycle states that rule reuse out. */
  predicate Unusable(l: LifecycleState) {
    l == STALE || l == INVALIDATED || l == SUPERSEDED || l == QUARANTINED || l == EVICTED || l == RETIRED || l == FAILED
  }

  predicate IntegrityFails(d: Descriptor, i: Inputs) {
    !i.integrityOk || d.validation == INTEGRITY_FAILURE
  }

  function Noted(before: seq<Reason>, fails: bool, reason: Reason): seq<Reason> {
    if fails then before + [reason] else before
  }

  /** The gates before compatibility, in their order. */
  function Gates(d: Descriptor, i: Inputs): seq<Reason> {
    var integrity := Noted([], IntegrityFails(d, i), IntegrityReason);
    var provenance := Noted(integrity, !i.provenanceValid, ProvenanceReason);
    var authority := Noted(provenance, !i.authorityCurrent, AuthorityReason);
    var lifecycle := Noted(authority, Unusable(d.lifecycle), LifecycleReason(d.lifecycle));
    var validation := Noted(lifecycle, d.validation != VALIDATED && d.validation != INTEGRITY_OK && !IntegrityFails(d, i),
                            NotValidatedReason);
    Noted(validation, !i.placementAvailable, PlacementReason)
  }

  function CompatReasons(failed: seq<Dimension>): (r: seq<Reason>)
    ensures |r| == |failed|
  {
    seq(|failed|, k requires 0 <= k < |failed| => CompatReason(failed[k]))
  }

  /** Everything `check_reuse` reports. */
  function Failures(d: Descriptor, r: Requirement, i: Inputs): seq<Reason> {
    Gates(d, i) + CompatReasons(Evaluation(d, r, i.isFresh).failed)
  }

  predicate Reusable(d: Descriptor, r: Requirement, i: Inputs) {
    Failures(d, r, i) == []
  }

  /** An artifact is reusable exactly when it is intact, has a provenance, is under current
      authority, is in none of the unusable states, passed validation or the integrity check,
      is placed somewhere intact and satisfies the requirement in every dimension. */
  lemma ReusableIff(d: Descriptor, r: Requirement, i: Inputs)
    ensures Reusable(d, r, i) <==>
      && i.integrityOk && i.provenanceValid && i.authorityCurrent && i.placementAvailable
      && !Unusable(d.lifecycle) && d.validation in {VALIDATED, INTEGRITY_OK}
      && forall dim :: dim in ALL_CHECKS ==> !Fails(d, r, i.isFresh, dim)
  {
    hide Fails;
    FailedInIs(d, r, i.isFresh, ALL_CHECKS);
    var failed := FailedIn(d, r, i.isFresh, ALL_CHECKS);
    if failed != [] {
      assert failed[0] in failed;
    } else {
      forall dim | dim in ALL_CHECKS ensures !Fails(d, r, i.isFresh, dim) { assert dim !in failed; }
    }
  }

  /** Which reasons are reported: each gate its own, and each failed dimension. */
  lemma ReasonsReported(d: Descriptor, r: Requirement, i: Inputs, l: LifecycleState, dim: Dimension)
    ensures IntegrityReason in Failures(d, r, i) <==> !i.integrityOk || d.validation == INTEGRITY_FAILURE
    ensures ProvenanceReason in Failures(d, r, i) <==> !i.provenanceValid
    ensures AuthorityReason in Failures(d, r, i) <==> !i.authorityCurrent
    ensures LifecycleReason(l) in Failures(d, r, i) <==>
      l == d.lifecycle && l in {STALE, INVALIDATED, SUPERSEDED, QUARANTINED, EVICTED, RETIRED, FAILED}
    ensures NotValidatedReason in Failures(d, r, i) <==>
      i.integrityOk && d.validation in {UNVALIDATED, CHECKING, INVALID, QUARANTINE}
    ensures PlacementReason in Failures(d, r, i) <==> !i.placementAvailable
    ensures CompatReason(dim) in Failures(d, r, i) <==> dim in Evaluation(d, r, i.isFresh).failed
  {
    hide Evaluation, Gates;
    var failed := Evaluation(d, r, i.isFresh).failed;
    GatesAre(d, i, l, dim);
    forall x: Reason ensures x in CompatReasons(failed) <==> x.CompatReason? && x.dim in failed {
      if x.CompatReason? && x.dim in failed {
        var k :| 0 <= k < |failed| && failed[k] == x.dim;
        assert CompatReasons(failed)[k] == x;
      }
    }
  }

  lemma GatesAre(d: Descriptor, i: Inputs, l: LifecycleState, dim: Dimension)
    ensures IntegrityReason in Gates(d, i) <==> !i.integrityOk || d.validation == INTEGRITY_FAILURE
    ensures ProvenanceReason in Gates(d, i) <==> !i.provenanceValid
    ensures AuthorityReason in Gates(d, i) <==> !i.authorityCurrent
    ensures LifecycleReason(l) in Gates(d, i) <==>
      l == d.lifecycle && l in {STALE, INVALIDATED, SUPERSEDED, QUARANTINED, EVICTED, RETIRED, FAILED}
    ensures NotValidatedReason in Gates(d, i) <==>
      i.integrityOk && d.validation in {UNVALIDATED, CHECKING, INVALID, QUARANTINE}
    ensures PlacementReason in Gates(d, i) <==> !i.placementAvailable
    ensures CompatReason(dim) !in Gates(d, i)
  {
    hide Noted;
    var integrity := Noted([], IntegrityFails(d, i), IntegrityReason);
    NotedIs([], IntegrityFails(d, i), IntegrityReason);
    var provenance := Noted(integrity, !i.provenanceValid, ProvenanceReason);
    NotedIs(integrity, !i.provenanceValid, ProvenanceReason);
    var authority := Noted(provenance, !i.authorityCurrent, AuthorityReason);
    NotedIs(provenance, !i.authorityCurrent, AuthorityReason);
    var lifecycle := Noted(authority, Unusable(d.lifecycle), LifecycleReason(d.lifecycle));
    NotedIs(authority, Unusable(d.lifecycle), LifecycleReason(d.lifecycle));
    var unvalidated := d.validation != VALIDATED && d.validation != INTEGRITY_OK && !IntegrityFails(d, i);
    NotedIs(lifecycle, unvalidated, NotValidatedReason);
    NotedIs(Noted(lifecycle, unvalidated, NotValidatedReason), !i.placementAvailable, PlacementReason);
  }

  lemma NotedIs(before: seq<Reason>, fails: bool, reason: Reason)
    ensures forall x: Reason :: x in Noted(before, fails, reason) <==> x in before || (fails && x == reason)
  {
  }

  /** Asking for more never makes an artifact reusable. */
  lemma MoreRequiredLessReusable(d: Descriptor, r: Requirement, q: Requirement, i: Inputs)
    requires Stronger(r, q) && Reusable(d, q, i)
    ensures Reusable(d, r, i)
  {
    hide Fails, Stronger;
    ReusableIff(d, r, i);
    ReusableIff(d, q, i);
    forall dim | dim in ALL_CHECKS ensures !Fails(d, r, i.isFresh, dim) {
      if Fails(d, r, i.isFresh, dim) { StrongerFails(d, r, q, i.isFresh, dim); }
    }
  }

  method CheckGates(d: Descriptor, i: Inputs) returns (failures: seq<Reason>)
    ensures failures == Gates(d, i)
  {
    failures := [];
    var integrityFailed := false;
    if !i.integrityOk {
      failures := failures + [IntegrityReason];
      integrityFailed := true;
    } else if d.validation == INTEGRITY_FAILURE {
      failures := failures + [IntegrityReason];
      integrityFailed := true;
    }
    if !i.provenanceValid { failures := failures + [ProvenanceReason]; }
    if !i.authorityCurrent { failures := failures + [AuthorityReason]; }
    match d.lifecycle {
      case STALE | INVALIDATED | SUPERSEDED | QUARANTINED | EVICTED | RETIRED | FAILED =>
        failures := failures + [LifecycleReason(d.lifecycle)];
      case _ =>
    }
    if d.validation != VALIDATED && d.validation != INTEGRITY_OK && !integrityFailed {
      failures := failures + [NotValidatedReason];
    }
    if !i.placementAvailable { failures := failures + [PlacementReason]; }
  }

  /** `check_reuse`. */
  method CheckReuse(d: Descriptor, r: Requirement, i: Inputs) returns (reusable: bool, failures: seq<Reason>)
    ensures failures == Failures(d, r, i) && reusable == Reusable(d, r, i)
  {
    hide Gates, Evaluation;
    failures := CheckGates(d, i);
    var compat := EvaluateCompatibility(d, r, i.isFresh);
    var failed := compat.failedDimensions;
    CompatibleIff(d, r, i.isFresh);
    assert CompatReasons([]) == [];
    if compat.outcome != Compatible {
      for k := 0 to |failed|
        invariant failures == Gates(d, i) + CompatReasons(failed[..k])
      {
        failures := failures + [CompatReason(failed[k])];
      }
      assert failed[..|failed|] == failed;
    }
    reusable := failures == [];
  }

  lemma CompatibleIff(d: Descriptor, r: Requirement, f: Freshness)
    ensures Evaluation(d, r, f).outcome == Compatible <==> Evaluation(d, r, f).failed == []
  {
    hide Fails, OutcomeOf;
    if Evaluation(d, r, f).outcome == Compatible {  }
  }

  // ---- reuse of a catalogued artifact ---------------------------------------------------

  /** The freshness test the catalog supplies: the dependency is catalogued, and is not
      INVALIDATED, RETIRED, EVICTED or QUARANTINED. */
  predicate FreshAmong(m: map<Id, Descriptor>, dep: Id) {
    dep in m && var l := m[dep].lifecycle; l != INVALIDATED && l != RETIRED && l != EVICTED && l != QUARANTINED
  }

  predicate FreshIn(s: State, dep: Id) { FreshAmong(s.artifacts, dep) }

  /** What the catalog knows about one of its artifacts. */
  function InputsFor(m: map<Id, Descriptor>, d: Descriptor): Inputs {
    Inputs(d.validation != INTEGRITY_FAILURE && d.validation != QUARANTINE,
           d.placements == [] || exists k :: 0 <= k < |d.placements| && d.placements[k].integrityOk,
           d.provenance != 0, true, Some((dep: Id) => FreshAmong(m, dep)))
  }

  /** `Catalog::reuse` answers "reusable". */
  predicate ReusableIn(s: State, id: Id, r: Requirement) {
    id in s.artifacts && Reusable(s.artifacts[id], r, InputsFor(s.artifacts, s.artifacts[id]))
  }

  /** A catalogued artifact in an unusable state, or with a stale direct dependency, is never
      reported reusable, whatever is required of it. */
  lemma NotReusable(s: State, id: Id, r: Requirement)
    requires id in s.artifacts
    requires Unusable(s.artifacts[id].lifecycle)
      || exists k :: 0 <= k < |s.artifacts[id].dependencies| && !FreshIn(s, s.artifacts[id].dependencies[k].artifact)
    ensures !ReusableIn(s, id, r)
  {
    var d := s.artifacts[id];
    ReusableIff(d, r, InputsFor(s.artifacts, d));
    if !Unusable(d.lifecycle) {
      assert Fails(d, r, InputsFor(s.artifacts, d).isFresh, DependencyDim);
      assert DependencyDim in ALL_CHECKS;
    }
  }
}
