/** Invalidation: the recursion over dependents is one flat pass over the closure. */
module Invalidation {
  import opened Types
  import opened Sorting
  import opened Lifecycle
  import opened GraphModel
  import opened CatalogModel
  import Collections

  function Invalidated(d: Descriptor): Descriptor { d.(lifecycle := INVALIDATED) }

  function MarkedArtifacts(artifacts: map<Id, Descriptor>, marked: set<Id>): map<Id, Descriptor> {
    map id | id in artifacts :: if id in marked then Invalidated(artifacts[id]) else artifacts[id]
  }

  function MarkedCauses(causes: map<Id, Bytes>, marked: set<Id>, cause: Bytes): map<Id, Bytes> {
    map id | id in causes.Keys + marked :: if id in marked then cause else causes[id]
  }

  /** Exactly the artifacts in `marked` become INVALIDATED, for `cause`; they are indexed under
      their new state and counted. Nothing else changes. */
  ghost function MarkAll(s: State, marked: set<Id>, cause: Bytes): State {
    s.(artifacts := MarkedArtifacts(s.artifacts, marked), indexed := s.indexed + marked,
       causes := MarkedCauses(s.causes, marked, cause),
       counters := s.counters.(invalidations := s.counters.invalidations + |marked|))
  }

  predicate CanInvalidate(s: State, id: Id) {
    id in s.artifacts && CanTransition(s.artifacts[id].lifecycle, INVALIDATED)
  }

  ghost predicate AllCan(s: State, ids: set<Id>) {
    forall id :: id in ids ==> CanInvalidate(s, id)
  }

  /** What invalidating `id` must mark: the live artifacts among it and its dependents. */
  ghost function Hit(s: State, id: Id): set<Id> {
    LiveSet(s) * ({id} + Dependents(s.graph, id))
  }

  lemma MarkNone(s: State, cause: Bytes)
    ensures MarkAll(s, {}, cause) == s
  {
    assert MarkedArtifacts(s.artifacts, {}) == s.artifacts;
    assert MarkedCauses(s.causes, {}, cause) == s.causes;
    assert s.indexed + {} == s.indexed;
  }

  lemma MarkTwice(s: State, a: set<Id>, b: set<Id>, cause: Bytes)
    requires a !! b
    ensures MarkAll(MarkAll(s, a, cause), b, cause) == MarkAll(s, a + b, cause)
  {
    hide MarkedArtifacts, MarkedCauses;
    TwiceArtifacts(s.artifacts, a, b);
    TwiceCauses(s.causes, a, b, cause);
    assert |a + b| == |a| + |b|;
    assert (s.indexed + a) + b == s.indexed + (a + b);
  }

  lemma TwiceArtifacts(m: map<Id, Descriptor>, a: set<Id>, b: set<Id>)
    requires a !! b
    ensures MarkedArtifacts(MarkedArtifacts(m, a), b) == MarkedArtifacts(m, a + b)
  {
    hide Invalidated;
  }

  lemma TwiceCauses(m: map<Id, Bytes>, a: set<Id>, b: set<Id>, cause: Bytes)
    ensures MarkedCauses(MarkedCauses(m, a, cause), b, cause) == MarkedCauses(m, a + b, cause)
  {
  }

  lemma MarkOne(s: State, id: Id, cause: Bytes)
    requires CanInvalidate(s, id)
    ensures InvalidateOne(s, id, cause) == (Returned(()), MarkAll(s, {id}, cause))
  {
    hide MarkedArtifacts, MarkedCauses;
    OneArtifact(s.artifacts, id);
    OneCause(s.causes, id, cause);
    var d := s.artifacts[id].(lifecycle := INVALIDATED);
    assert MarkedArtifacts(s.artifacts, {id}) == s.artifacts[id := d];
  }

  lemma OneCause(m: map<Id, Bytes>, id: Id, cause: Bytes)
    ensures MarkedCauses(m, {id}, cause) == m[id := cause]
  {
  }

  lemma OneArtifact(m: map<Id, Descriptor>, id: Id)
    requires id in m
    ensures MarkedArtifacts(m, {id}) == m[id := Invalidated(m[id])]
  {
    hide Invalidated;
  }

  lemma MarkedLive(s: State, marked: set<Id>, cause: Bytes)
    ensures LiveSet(MarkAll(s, marked, cause)) == LiveSet(s) - marked
  {
    var t := MarkAll(s, marked, cause);
    forall id ensures id in LiveSet(t) <==> id in LiveSet(s) - marked {}
  }

  lemma MarkedCan(s: State, marked: set<Id>, cause: Bytes, ids: set<Id>)
    requires marked !! ids
    ensures AllCan(MarkAll(s, marked, cause), ids) <==> AllCan(s, ids)
  {
    var t := MarkAll(s, marked, cause);
    forall id | id in ids ensures CanInvalidate(t, id) <==> CanInvalidate(s, id) {}
  }

  ghost function LiveIn(s: State, ids: seq<Id>): set<Id> {
    set x | x in LiveSet(s) && x in ids
  }

  /** A list that holds every live dependent of its members. */
  ghost predicate ClosedUp(s: State, ids: seq<Id>) {
    forall y, x :: y in ids && x in Dependents(s.graph, y) && Live(s, x) ==> x in ids
  }

  lemma DependentsOfDependents(g: Graph, id: Id, y: Id)
    requires y in Dependents(g, id)
    ensures Dependents(g, y) <= Dependents(g, id)
  {
    forall x | x in Dependents(g, y) ensures x in Dependents(g, id) {
      DependsReaches(g, x, y);
      ReachesThenDepends(g, x, y, id);
    }
  }

  /** A pass that marked `done` and then the members of `rest` marked the union, and stops in
      the same cases. */
  lemma TwoPasses(s: State, t: State, first: set<Id>, rest: set<Id>, cause: Bytes, r: Step)
    requires first !! rest && t == MarkAll(s, first, cause) && AllCan(s, first)
    requires r.0.Returned? <==> AllCan(t, rest)
    requires r.0.Returned? ==> r.1 == MarkAll(t, rest, cause)
    ensures r.0.Returned? <==> AllCan(s, first + rest)
    ensures r.0.Returned? ==> r.1 == MarkAll(s, first + rest, cause)
  {
    MarkedCan(s, first, cause, rest);
    MarkTwice(s, first, rest, cause);
  }

  lemma {:induction false} FromIsFlat(s: State, id: Id, cause: Bytes)
    requires WellFormed(s) && Live(s, id)
    ensures InvalidateFrom(s, id, cause).0.Returned? <==> AllCan(s, Hit(s, id))
    ensures InvalidateFrom(s, id, cause).0.Returned? ==>
              InvalidateFrom(s, id, cause).1 == MarkAll(s, Hit(s, id), cause)
    decreases |LiveSet(s)|, 0, 0
  {
    hide WellFormed, MarkAll, AllCan, ClosedUp, Move, InvalidateEach;
    InvalidateOneSettles(s, id, cause);
    LiveMember(s, id);
    if CanInvalidate(s, id) {
      MarkOne(s, id, cause);
      var t := MarkAll(s, {id}, cause);
      var ids := SortedIds(Dependents(s.graph, id));
      MarkedLive(s, {id}, cause);
      MarkedGraph(s, {id}, cause);
      DependentsClosedUp(t, id);
      EachIsFlat(t, ids, cause);
      NotOwnDependent(s, id);
      var rest := LiveIn(t, ids);
      assert Hit(s, id) == {id} + rest;
      TwoPasses(s, t, {id}, rest, cause, InvalidateEach(t, ids, cause));
    } else {
      OneFails(s, id, cause);
      CannotAll(s, id, Hit(s, id));
    }
  }

  lemma {:induction false} EachIsFlat(s: State, ids: seq<Id>, cause: Bytes)
    requires WellFormed(s) && ClosedUp(s, ids)
    ensures var hit := LiveIn(s, ids);
      && (InvalidateEach(s, ids, cause).0.Returned? <==> AllCan(s, hit))
      && (InvalidateEach(s, ids, cause).0.Returned? ==> InvalidateEach(s, ids, cause).1 == MarkAll(s, hit, cause))
    decreases |LiveSet(s)|, 1, |ids|
  {
    hide WellFormed, MarkAll, AllCan, ClosedUp, InvalidateFrom, Hit, LiveIn, LiveSet;
    var hit := LiveIn(s, ids);
    if ids == [] {
      EmptyHit(s);
      MarkNone(s, cause);
      NoneCan(s);
    } else if Live(s, ids[0]) {
      var id, rest := ids[0], ids[1..];
      FromIsFlat(s, id, cause);
      HitWithin(s, ids);
      var first := Hit(s, id);
      if AllCan(s, first) {
        var t := MarkAll(s, first, cause);
        MarkedLive(s, first, cause);
        MarkedGraph(s, first, cause);
        SplitHit(s, t, ids);
        ClosedUpTail(s, t, ids);
        EachIsFlat(t, rest, cause);
        var more := LiveIn(t, rest);
        TwoPasses(s, t, first, more, cause, InvalidateEach(t, rest, cause));
      } else {
        CannotSome(s, first, hit);
      }
    } else {
      SkipHead(s, ids);
      ClosedUpTail(s, s, ids);
      EachIsFlat(s, ids[1..], cause);
    }
  }

  lemma EmptyHit(s: State)
    ensures LiveIn(s, []) == {}
  {
  }

  lemma SkipHead(s: State, ids: seq<Id>)
    requires ids != [] && !Live(s, ids[0])
    ensures LiveIn(s, ids) == LiveIn(s, ids[1..]) && LiveSet(s) <= LiveSet(s) - {ids[0]}
  {
    assert ids == [ids[0]] + ids[1..];
  }

  lemma SplitHit(s: State, t: State, ids: seq<Id>)
    requires ids != [] && Live(s, ids[0]) && ClosedUp(s, ids)
    requires LiveSet(t) == LiveSet(s) - Hit(s, ids[0])
    ensures LiveIn(s, ids) == Hit(s, ids[0]) + LiveIn(t, ids[1..])
    ensures Hit(s, ids[0]) !! LiveIn(t, ids[1..]) && ids[0] !in LiveSet(t)
  {
    HitWithin(s, ids);
    assert ids == [ids[0]] + ids[1..];
  }

  lemma NoneCan(s: State)
    ensures AllCan(s, {})
  {
  }

  lemma OneFails(s: State, id: Id, cause: Bytes)
    requires id in s.artifacts && !CanInvalidate(s, id)
    ensures InvalidateOne(s, id, cause).0.Threw?
  {
  }

  lemma CannotAll(s: State, id: Id, ids: set<Id>)
    requires !CanInvalidate(s, id) && id in ids
    ensures !AllCan(s, ids)
  {
  }

  lemma CannotSome(s: State, some: set<Id>, ids: set<Id>)
    requires !AllCan(s, some) && some <= ids
    ensures !AllCan(s, ids)
  {
  }

  lemma MarkedGraph(s: State, marked: set<Id>, cause: Bytes)
    ensures MarkAll(s, marked, cause).graph == s.graph
    ensures WellFormed(s) && marked <= s.artifacts.Keys ==> WellFormed(MarkAll(s, marked, cause))
  {
    hide Valid, Invalidated, MarkedCauses;
    forall id | id in s.artifacts ensures Invalidated(s.artifacts[id]).id == s.artifacts[id].id { SameId(s.artifacts[id]); }
  }

  lemma SameId(d: Descriptor)
    ensures Invalidated(d).id == d.id
  {
  }

  lemma NotOwnDependent(s: State, id: Id)
    requires WellFormed(s)
    ensures id !in Dependents(s.graph, id)
  {
  }

  lemma DependentsClosedUp(s: State, id: Id)
    ensures ClosedUp(s, SortedIds(Dependents(s.graph, id)))
  {
    var ids := SortedIds(Dependents(s.graph, id));
    forall y, x | y in ids && x in Dependents(s.graph, y) ensures x in ids {
      DependentsOfDependents(s.graph, id, y);
    }
  }

  lemma HitWithin(s: State, ids: seq<Id>)
    requires ids != [] && Live(s, ids[0]) && ClosedUp(s, ids)
    ensures Hit(s, ids[0]) <= LiveIn(s, ids)
    ensures ids[0] in Hit(s, ids[0]) && Hit(s, ids[0]) <= LiveSet(s)
  {
  }

  /** What is left of the list is closed again once its head is no longer live. */
  lemma ClosedUpTail(s: State, t: State, ids: seq<Id>)
    requires ids != [] && ClosedUp(s, ids) && t.graph == s.graph
    requires LiveSet(t) <= LiveSet(s) - {ids[0]}
    ensures ClosedUp(t, ids[1..])
  {
    forall y, x | y in ids[1..] && x in Dependents(t.graph, y) && Live(t, x) ensures x in ids[1..] {
      assert x in LiveSet(t) && x in LiveSet(s);
      assert y in ids && x in ids;
    }
  }

  /** `invalidate` returns normally exactly when every catalogued artifact among `id` and its
      transitive dependents is VALID, PUBLISHED, ACTIVE, STALE, or already INVALIDATED, RETIRED
      or EVICTED. It then moves exactly those outside the last three to INVALIDATED, counts
      each of them once, and leaves everything else alone. */
  lemma InvalidationIsExact(s: State, id: Id, cause: Bytes, a: Authority)
    requires WellFormed(s) && id in s.artifacts && !StaleGeneration(a, s.artifacts[id].generation)
    ensures InvalidateLocked(s, id, cause, a).0.Returned? <==>
      forall x :: x in s.artifacts && (x == id || DependsOn(s.graph, x, id)) ==>
        s.artifacts[x].lifecycle in {VALID, PUBLISHED, ACTIVE, STALE, INVALIDATED, RETIRED, EVICTED}
    ensures InvalidateLocked(s, id, cause, a).0.Returned? ==>
      InvalidateLocked(s, id, cause, a).1 == MarkAll(s, Hit(s, id), cause)
  {
    hide WellFormed, MarkAll, AllCan, ClosedUp, InvalidateEach;
    if Live(s, id) {
      FromIsFlat(s, id, cause);
    } else {
      DependentsClosedUp(s, id);
      var ids := SortedIds(Dependents(s.graph, id));
      EachIsFlat(s, ids, cause);
      assert Hit(s, id) == LiveIn(s, ids);
    }
    HitCan(s, id);
  }

  lemma HitCan(s: State, id: Id)
    requires WellFormed(s)
    ensures AllCan(s, Hit(s, id)) <==>
      forall x :: x in s.artifacts && (x == id || DependsOn(s.graph, x, id)) ==>
        s.artifacts[x].lifecycle in {VALID, PUBLISHED, ACTIVE, STALE, INVALIDATED, RETIRED, EVICTED}
  {
    forall x | x in s.artifacts && DependsOn(s.graph, x, id) ensures x in Dependents(s.graph, id) {
      DependsOnNode(s.graph, x, id);
    }
    forall x | x in s.artifacts && (x == id || DependsOn(s.graph, x, id))
      ensures (x in Hit(s, id) ==> CanInvalidate(s, x)) <==>
              s.artifacts[x].lifecycle in {VALID, PUBLISHED, ACTIVE, STALE, INVALIDATED, RETIRED, EVICTED}
    {
    }
  }

  // ---- what an invalidation leaves alone, also when it throws ---------------------------

  lemma FromUnfolds(s: State, id: Id, cause: Bytes)
    requires WellFormed(s)
    ensures InvalidateFrom(s, id, cause) ==
      if !Live(s, id) then InvalidateEach(s, SortedIds(Dependents(s.graph, id)), cause)
      else (
        InvalidateOneSettles(s, id, cause);
        var (moved, t) := InvalidateOne(s, id, cause);
        if moved.Threw? then (moved, t) else InvalidateEach(t, SortedIds(Dependents(t.graph, id)), cause))
  {
    hide WellFormed, InvalidateEach, InvalidateOne;
  }

  lemma EachUnfolds(s: State, ids: seq<Id>, cause: Bytes)
    requires WellFormed(s)
    ensures InvalidateEach(s, ids, cause) ==
      if ids == [] then (Returned(()), s)
      else if !Live(s, ids[0]) then InvalidateEach(s, ids[1..], cause)
      else
        var (done, t) := InvalidateFrom(s, ids[0], cause);
        if done.Threw? then (done, t) else InvalidateEach(t, ids[1..], cause)
  {
    hide WellFormed, InvalidateFrom;
  }

  /** Only lifecycle states, indexes, causes and the count of invalidations differ. */
  ghost predicate OnlyStates(s: State, t: State) {
    t == s.(artifacts := t.artifacts, indexed := t.indexed, causes := t.causes,
            counters := s.counters.(invalidations := t.counters.invalidations))
  }

  lemma OneOnlyStates(s: State, id: Id, cause: Bytes)
    requires id in s.artifacts
    ensures OnlyStates(s, InvalidateOne(s, id, cause).1)
  {
    hide CanTransition;
  }

  lemma {:induction false} FromOnlyStates(s: State, id: Id, cause: Bytes)
    requires WellFormed(s)
    ensures OnlyStates(s, InvalidateFrom(s, id, cause).1)
    decreases |LiveSet(s)|, if Live(s, id) then 0 else 2, 0
  {
    hide WellFormed, InvalidateEach, InvalidateOne, InvalidateFrom;
    FromUnfolds(s, id, cause);
    if Live(s, id) {
      InvalidateOneSettles(s, id, cause);
      OneOnlyStates(s, id, cause);
      var (moved, t) := InvalidateOne(s, id, cause);
      if moved.Returned? { EachOnlyStates(t, SortedIds(Dependents(t.graph, id)), cause); }
    } else {
      EachOnlyStates(s, SortedIds(Dependents(s.graph, id)), cause);
    }
  }

  lemma {:induction false} EachOnlyStates(s: State, ids: seq<Id>, cause: Bytes)
    requires WellFormed(s)
    ensures OnlyStates(s, InvalidateEach(s, ids, cause).1)
    decreases |LiveSet(s)|, 1, |ids|
  {
    hide WellFormed, InvalidateEach, InvalidateFrom;
    EachUnfolds(s, ids, cause);
    if ids != [] {
      if Live(s, ids[0]) {
        FromOnlyStates(s, ids[0], cause);
        var (done, t) := InvalidateFrom(s, ids[0], cause);
        Collections.SubsetSize(LiveSet(t), LiveSet(s));
        if done.Returned? { EachOnlyStates(t, ids[1..], cause); }
      } else {
        EachOnlyStates(s, ids[1..], cause);
      }
    }
  }

  lemma InvalidateOnlyStates(s: State, id: Id, cause: Bytes, a: Authority)
    requires WellFormed(s)
    ensures OnlyStates(s, InvalidateLocked(s, id, cause, a).1)
  {
    hide WellFormed, InvalidateFrom;
    FromOnlyStates(s, id, cause);
  }
}
