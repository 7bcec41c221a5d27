/** The artifact lifecycle: the transition table, and what it allows over several steps. */
module Lifecycle {
  import opened Types

  predicate CanTransition(from: LifecycleState, to: LifecycleState) {
    match from
    case DECLARED => to == BUILDING || to == FAILED || to == RETIRED
    case BUILDING => to == VALIDATING || to == FAILED || to == QUARANTINED
    case VALIDATING => to == VALID || to == FAILED || to == QUARANTINED
    case VALID =>
      to == PUBLISHED || to == ACTIVE || to == INVALIDATED || to == SUPERSEDED || to == QUARANTINED || to == STALE
      || to == RETIRED
    case PUBLISHED =>
      to == ACTIVE || to == INVALIDATED || to == SUPERSEDED || to == QUARANTINED || to == STALE || to == RETIRED
    case ACTIVE =>
      to == STALE || to == INVALIDATED || to == SUPERSEDED || to == QUARANTINED || to == RETIRED || to == EVICTED
    case STALE => to == INVALIDATED || to == RETIRED || to == ACTIVE
    case INVALIDATED => to == RETIRED || to == QUARANTINED || to == STALE
    case SUPERSEDED => to == RETIRED || to == QUARANTINED || to == STALE
    case QUARANTINED => to == RETIRED || to == VALIDATING || to == EVICTED
    case EVICTED => to == RETIRED
    case RETIRED => false
    case FAILED => false
  }

  lemma EnteredUpward(s: LifecycleState)
    ensures !CanTransition(s, DECLARED)
    ensures CanTransition(s, BUILDING) <==> s == DECLARED
    ensures CanTransition(s, VALIDATING) <==> s in {BUILDING, QUARANTINED}
    ensures CanTransition(s, VALID) <==> s == VALIDATING
    ensures CanTransition(s, PUBLISHED) <==> s == VALID
    ensures CanTransition(s, ACTIVE) <==> s in {VALID, PUBLISHED, STALE}
    ensures CanTransition(s, STALE) <==> s in {VALID, PUBLISHED, ACTIVE, INVALIDATED, SUPERSEDED}
  {
  }

  lemma EnteredDownward(s: LifecycleState)
    ensures CanTransition(s, INVALIDATED) <==> s in {VALID, PUBLISHED, ACTIVE, STALE}
    ensures CanTransition(s, SUPERSEDED) <==> s in {VALID, PUBLISHED, ACTIVE}
    ensures CanTransition(s, QUARANTINED) <==>
              s in {BUILDING, VALIDATING, VALID, PUBLISHED, ACTIVE, INVALIDATED, SUPERSEDED}
    ensures CanTransition(s, EVICTED) <==> s in {ACTIVE, QUARANTINED}
    ensures CanTransition(s, RETIRED) <==>
              s in {DECLARED, VALID, PUBLISHED, ACTIVE, STALE, INVALIDATED, SUPERSEDED, QUARANTINED, EVICTED}
    ensures CanTransition(s, FAILED) <==> s in {DECLARED, BUILDING, VALIDATING}
  {
  }

  /** The table by its columns: from which states each state can be entered. */
  lemma EnteredFrom(s: LifecycleState)
    ensures !CanTransition(s, DECLARED)
    ensures CanTransition(s, BUILDING) <==> s == DECLARED
    ensures CanTransition(s, VALIDATING) <==> s in {BUILDING, QUARANTINED}
    ensures CanTransition(s, VALID) <==> s == VALIDATING
    ensures CanTransition(s, PUBLISHED) <==> s == VALID
    ensures CanTransition(s, ACTIVE) <==> s in {VALID, PUBLISHED, STALE}
    ensures CanTransition(s, STALE) <==> s in {VALID, PUBLISHED, ACTIVE, INVALIDATED, SUPERSEDED}
    ensures CanTransition(s, INVALIDATED) <==> s in {VALID, PUBLISHED, ACTIVE, STALE}
    ensures CanTransition(s, SUPERSEDED) <==> s in {VALID, PUBLISHED, ACTIVE}
    ensures CanTransition(s, QUARANTINED) <==>
              s in {BUILDING, VALIDATING, VALID, PUBLISHED, ACTIVE, INVALIDATED, SUPERSEDED}
    ensures CanTransition(s, EVICTED) <==> s in {ACTIVE, QUARANTINED}
    ensures CanTransition(s, RETIRED) <==>
              s in {DECLARED, VALID, PUBLISHED, ACTIVE, STALE, INVALIDATED, SUPERSEDED, QUARANTINED, EVICTED}
    ensures CanTransition(s, FAILED) <==> s in {DECLARED, BUILDING, VALIDATING}
  {
    hide CanTransition;
    EnteredUpward(s);
    EnteredDownward(s);
  }

  /** `apply_transition`: the new state, or the exception. */
  function ApplyTransition(from: LifecycleState, to: LifecycleState): (r: Outcome<LifecycleState>)
    ensures r.Returned? ==> r.value == to
  {
    if CanTransition(from, to) then Returned(to) else Threw(IllegalTransition)
  }

  /** `path` is a run through the table. */
  ghost predicate IsRun(path: seq<LifecycleState>) {
    |path| > 0 && forall i :: 0 <= i < |path| - 1 ==> CanTransition(path[i], path[i + 1])
  }

  ghost predicate Connects(path: seq<LifecycleState>, from: LifecycleState, to: LifecycleState) {
    IsRun(path) && path[0] == from && path[|path| - 1] == to
  }

  ghost predicate CanReach(from: LifecycleState, to: LifecycleState) {
    exists path :: Connects(path, from, to)
  }

  /** A set of states that no transition leaves is never left. */
  lemma {:induction false} ClosedStates(path: seq<LifecycleState>, inside: set<LifecycleState>)
    requires IsRun(path) && path[0] in inside
    requires forall s, t :: s in inside && CanTransition(s, t) ==> t in inside
    ensures path[|path| - 1] in inside
  {
    if |path| > 1 {
      var rest := path[1..];
      assert CanTransition(path[0], path[0 + 1]);
      forall i | 0 <= i < |rest| - 1 ensures CanTransition(rest[i], rest[i + 1]) {
        assert rest[i] == path[i + 1] && rest[i + 1] == path[i + 2];
      }
      ClosedStates(rest, inside);
    }
  }

  /** RETIRED and FAILED are the only dead ends, and nothing that failed is ever retired:
      every other state can still be retired. */
  lemma RetirableUnlessFailed(s: LifecycleState)
    ensures CanReach(s, RETIRED) <==> s != FAILED
    ensures (forall t :: !CanTransition(s, t)) <==> s == RETIRED || s == FAILED
  {
    if s == FAILED {
      if path :| Connects(path, FAILED, RETIRED) { ClosedStates(path, {FAILED}); }
    } else if s == RETIRED {
      assert Connects([RETIRED], RETIRED, RETIRED);
    } else if s == BUILDING {
      assert Connects([BUILDING, QUARANTINED, RETIRED], BUILDING, RETIRED);
    } else if s == VALIDATING {
      assert Connects([VALIDATING, QUARANTINED, RETIRED], VALIDATING, RETIRED);
    } else {
      assert CanTransition(s, RETIRED);
      assert Connects([s, RETIRED], s, RETIRED);
    }
    if s == BUILDING || s == VALIDATING { assert CanTransition(s, QUARANTINED); }
  }

  /** By the table alone, an artifact can become active again from every state except the two
      dead ends and EVICTED; in particular from INVALIDATED, through STALE. */
  lemma ActiveAgain(s: LifecycleState)
    ensures CanReach(s, ACTIVE) <==> s != RETIRED && s != FAILED && s != EVICTED
  {
    if s == RETIRED || s == FAILED || s == EVICTED {
      if path :| Connects(path, s, ACTIVE) { ClosedStates(path, {RETIRED, FAILED, EVICTED}); }
    } else {
      var tail := match s
        case DECLARED => [BUILDING, VALIDATING, VALID, ACTIVE]
        case BUILDING => [VALIDATING, VALID, ACTIVE]
        case QUARANTINED => [VALIDATING, VALID, ACTIVE]
        case VALIDATING => [VALID, ACTIVE]
        case INVALIDATED => [STALE, ACTIVE]
        case SUPERSEDED => [STALE, ACTIVE]
        case ACTIVE => []
        case _ => [ACTIVE];
      assert Connects([s] + tail, s, ACTIVE);
    }
  }
}
