/** The compatibility engine: an ordered list of checks, each of which may add a failed
    dimension and raise the severity of the outcome. */
module Compatibility {
  import opened Types
  import opened Derivation
  import Collections

  datatype CompatOutcome =
    | Compatible | Incompatible | Outdated | WasInvalidated | DependencyStale | GenerationMismatch
    | ToolchainMismatch | ArchMismatch | AbiMismatch | IntegrityBroken

  function Severity(o: CompatOutcome): nat {
    match o
    case IntegrityBroken => 9 case AbiMismatch => 8 case ArchMismatch => 7 case ToolchainMismatch => 6
    case GenerationMismatch => 5 case DependencyStale => 4 case Outdated => 3 case WasInvalidated => 2
    case Incompatible => 1 case Compatible => 0
  }

  /** The dimensions, in the order in which they are checked. */
  datatype Dimension =
    | ValidationDim | LifecycleDim
    | KindDim | ModelDim | AdapterDim | RuntimeDim | BackendDim | CompilerDim | ToolchainDim
    | ArchitectureDim | ComputeCapabilityDim | AbiDim | DtypeDim | LayoutDim | ShapeDim | SpecializationDim
    | LaunchGeometryDim | TokenizerVocabDim
    | ModelGenerationDim | AdapterGenerationDim | ToolchainGenerationDim | DependencyGenerationDim
    | PolicyGenerationDim | ArtifactGenerationDim | ProtocolVersionDim
    | DependencyDim

  const STATE_CHECKS := [ValidationDim, LifecycleDim]
  const IDENTITY_CHECKS := [KindDim, ModelDim, AdapterDim, RuntimeDim]
  const TOOL_CHECKS := [BackendDim, CompilerDim, ToolchainDim]
  const MACHINE_CHECKS := [ArchitectureDim, ComputeCapabilityDim, AbiDim]
  const FORM_CHECKS := [DtypeDim, LayoutDim, ShapeDim, SpecializationDim]
  const LAUNCH_CHECKS := [LaunchGeometryDim, TokenizerVocabDim]
  const SOURCE_GENERATION_CHECKS := [ModelGenerationDim, AdapterGenerationDim, ToolchainGenerationDim]
  const OWN_GENERATION_CHECKS :=
    [DependencyGenerationDim, PolicyGenerationDim, ArtifactGenerationDim, ProtocolVersionDim]
  const ALL_CHECKS :=
    STATE_CHECKS + IDENTITY_CHECKS + TOOL_CHECKS + MACHINE_CHECKS + FORM_CHECKS + LAUNCH_CHECKS
    + SOURCE_GENERATION_CHECKS + OWN_GENERATION_CHECKS + [DependencyDim]

  /** What is required; an absent field is not checked. */
  datatype Requirement = Requirement(
    kind: Option<ArtifactKind>, model: Option<Id>, minModelGeneration: Option<U64>,
    adapter: Option<Id>, minAdapterGeneration: Option<U64>,
    runtime: Option<Id>, backend: Option<Id>, compiler: Option<Id>, toolchain: Option<Id>,
    minToolchainGeneration: Option<U64>,
    architecture: Option<Bytes>, computeCapability: Option<Bytes>, abi: Option<Bytes>, dtype: Option<Bytes>,
    layout: Option<Bytes>, shape: Option<Bytes>, specialization: Option<Bytes>, launchGeometry: Option<Bytes>,
    tokenizerVocab: Option<Bytes>,
    minDependencyGeneration: Option<U64>, minPolicyGeneration: Option<U64>, minArtifactGeneration: Option<U64>,
    protocolVersion: Option<int>, requireValid: bool, requireReusable: bool)

  /** The optional freshness test for dependencies. */
  type Freshness = Option<Id -> bool>

  predicate Differs<T(==)>(wanted: Option<T>, actual: T) {
    wanted.Some? && wanted.value != actual
  }

  predicate Below(wanted: Option<U64>, actual: U64) {
    wanted.Some? && actual < wanted.value
  }

  /** `string::find` does not return `npos`. */
  predicate Occurs(s: Bytes, t: Bytes) {
    exists i :: 0 <= i <= |s| && OccursAt(s, t, i)
  }

  predicate OccursAt(s: Bytes, t: Bytes, i: nat) {
    i + |t| <= |s| && s[i..i + |t|] == t
  }

  /** Whether a dimension fails. The specialisation is compared with the shape, and every
      dependency generation is below the required one when their maximum is. */
  predicate Fails(d: Descriptor, r: Requirement, isFresh: Freshness, dim: Dimension) {
    match dim
    case ValidationDim => r.requireValid && d.validation != VALIDATED
    case LifecycleDim =>
      r.requireReusable && (d.lifecycle == SUPERSEDED || d.lifecycle == QUARANTINED || d.lifecycle == INVALIDATED
                            || d.lifecycle == EVICTED || d.lifecycle == RETIRED || d.lifecycle == FAILED)
    case KindDim => Differs(r.kind, d.kind)
    case ModelDim => r.model.Some? && d.model != r.model
    case AdapterDim => r.adapter.Some? && d.adapter != r.adapter
    case RuntimeDim => r.runtime.Some? && d.runtime != r.runtime
    case BackendDim => r.backend.Some? && d.backend != r.backend
    case CompilerDim => r.compiler.Some? && d.compiler != r.compiler
    case ToolchainDim => r.toolchain.Some? && d.toolchain != r.toolchain
    case ArchitectureDim => Differs(r.architecture, d.architecture)
    case ComputeCapabilityDim => Differs(r.computeCapability, d.computeCapability)
    case AbiDim => Differs(r.abi, d.abi)
    case DtypeDim => Differs(r.dtype, d.dtype)
    case LayoutDim => Differs(r.layout, d.layout)
    case ShapeDim => Differs(r.shape, d.shape)
    case SpecializationDim => Differs(r.specialization, d.shape)
    case LaunchGeometryDim => Differs(r.launchGeometry, d.launchMetadata)
    case TokenizerVocabDim => r.tokenizerVocab.Some? && !Occurs(d.reuseMetadata, r.tokenizerVocab.value)
    case ModelGenerationDim => r.minModelGeneration.Some? && (d.modelGeneration.None? || d.modelGeneration.value < r.minModelGeneration.value)
    case AdapterGenerationDim => r.minAdapterGeneration.Some? && (d.adapterGeneration.None? || d.adapterGeneration.value < r.minAdapterGeneration.value)
    case ToolchainGenerationDim => Below(r.minToolchainGeneration, d.toolchainGeneration)
    case DependencyGenerationDim =>
      r.minDependencyGeneration.Some? && r.minDependencyGeneration.value > 0
      && forall i :: 0 <= i < |d.dependencies| ==> d.dependencies[i].generation < r.minDependencyGeneration.value
    case PolicyGenerationDim => Below(r.minPolicyGeneration, d.policyGeneration)
    case ArtifactGenerationDim => Below(r.minArtifactGeneration, d.generation)
    case ProtocolVersionDim => Differs(r.protocolVersion, PROTOCOL_VERSION)
    case DependencyDim =>
      isFresh.Some? && exists i :: 0 <= i < |d.dependencies| && !isFresh.value(d.dependencies[i].artifact)
  }

  /** The outcome a failed dimension stands for; it does not depend on the requirement. */
  function OutcomeOf(d: Descriptor, dim: Dimension): (o: CompatOutcome)
    ensures Severity(o) > 0
  {
    match dim
    case ValidationDim => if d.validation == INTEGRITY_FAILURE then IntegrityBroken else WasInvalidated
    case LifecycleDim =>
      if d.lifecycle == SUPERSEDED then Outdated
      else if d.lifecycle == QUARANTINED || d.lifecycle == INVALIDATED then WasInvalidated
      else Incompatible
    case ToolchainDim => ToolchainMismatch
    case ArchitectureDim => ArchMismatch
    case ComputeCapabilityDim => ArchMismatch
    case AbiDim => AbiMismatch
    case ModelGenerationDim => GenerationMismatch
    case AdapterGenerationDim => GenerationMismatch
    case ToolchainGenerationDim => ToolchainMismatch
    case DependencyGenerationDim => DependencyStale
    case PolicyGenerationDim => Outdated
    case ArtifactGenerationDim => GenerationMismatch
    case DependencyDim => DependencyStale
    case _ => Incompatible
  }

  // ---- the result of a list of checks ---------------------------------------------------

  datatype Verdict = Verdict(outcome: CompatOutcome, failed: seq<Dimension>)

  function FailedIn(d: Descriptor, r: Requirement, isFresh: Freshness, dims: seq<Dimension>): seq<Dimension> {
    if dims == [] then []
    else FailedIn(d, r, isFresh, dims[..|dims| - 1])
         + if Fails(d, r, isFresh, dims[|dims| - 1]) then [dims[|dims| - 1]] else []
  }

  /** The outcome of the first failed dimension of greatest severity. */
  function WorstOf(d: Descriptor, failed: seq<Dimension>): CompatOutcome {
    if failed == [] then Compatible
    else
      var before, last := WorstOf(d, failed[..|failed| - 1]), OutcomeOf(d, failed[|failed| - 1]);
      if Severity(last) > Severity(before) then last else before
  }

  function Evaluated(d: Descriptor, r: Requirement, isFresh: Freshness, dims: seq<Dimension>): Verdict {
    var failed := FailedIn(d, r, isFresh, dims);
    Verdict(WorstOf(d, failed), failed)
  }

  function Evaluation(d: Descriptor, r: Requirement, isFresh: Freshness): Verdict {
    Evaluated(d, r, isFresh, ALL_CHECKS)
  }

  lemma {:induction false} FailedInIs(d: Descriptor, r: Requirement, isFresh: Freshness, dims: seq<Dimension>)
    ensures forall dim :: dim in FailedIn(d, r, isFresh, dims) <==> dim in dims && Fails(d, r, isFresh, dim)
  {
    if dims != [] {
      hide Fails;
      var init := dims[..|dims| - 1];
      assert dims == init + [dims[|dims| - 1]];
      FailedInIs(d, r, isFresh, init);
    }
  }

  /** No failed dimension is worse than the outcome, one is exactly as bad, and those before it
      are less bad. */
  ghost predicate FirstWorst(d: Descriptor, failed: seq<Dimension>, k: nat) {
    && k < |failed|
    && (forall i :: 0 <= i < |failed| ==> Severity(OutcomeOf(d, failed[i])) <= Severity(OutcomeOf(d, failed[k])))
    && (forall i :: 0 <= i < k ==> Severity(OutcomeOf(d, failed[i])) < Severity(OutcomeOf(d, failed[k])))
  }

  lemma {:induction false} WorstOfIs(d: Descriptor, failed: seq<Dimension>) returns (k: nat)
    requires failed != []
    ensures FirstWorst(d, failed, k) && WorstOf(d, failed) == OutcomeOf(d, failed[k])
  {
    hide OutcomeOf, Severity;
    var init, last := failed[..|failed| - 1], failed[|failed| - 1];
    if init == [] {
      assert failed == [last];
      PositiveSeverity(d, last);
      k := 0;
    } else {
      var j := WorstOfIs(d, init);
      k := if Severity(OutcomeOf(d, last)) > Severity(OutcomeOf(d, init[j])) then |init| else j;
      assert forall i :: 0 <= i < |init| ==> failed[i] == init[i];
    }
  }

  lemma PositiveSeverity(d: Descriptor, dim: Dimension)
    ensures Severity(OutcomeOf(d, dim)) > Severity(Compatible)
  {
  }

  /** The outcome is "compatible" exactly when no dimension fails; otherwise it is the outcome
      of a failing dimension, and no failing dimension is more severe. */
  lemma OutcomeIsWorst(d: Descriptor, r: Requirement, isFresh: Freshness)
    ensures var v := Evaluation(d, r, isFresh);
      && (v.outcome == Compatible <==> forall dim :: dim in ALL_CHECKS ==> !Fails(d, r, isFresh, dim))
      && (v.outcome != Compatible ==>
            (exists dim :: dim in ALL_CHECKS && Fails(d, r, isFresh, dim) && v.outcome == OutcomeOf(d, dim)))
      && (forall dim :: dim in ALL_CHECKS && Fails(d, r, isFresh, dim) ==>
            Severity(OutcomeOf(d, dim)) <= Severity(v.outcome))
  {
    hide Fails, OutcomeOf, Severity;
    var v := Evaluation(d, r, isFresh);
    FailedInIs(d, r, isFresh, ALL_CHECKS);
    if v.failed != [] {
      var k := WorstOfIs(d, v.failed);
      assert v.failed[k] in v.failed;
      PositiveSeverity(d, v.failed[k]);
      forall dim | dim in ALL_CHECKS && Fails(d, r, isFresh, dim)
        ensures Severity(OutcomeOf(d, dim)) <= Severity(v.outcome)
      {
        assert dim in v.failed;
      }
    } else {
      forall dim | dim in ALL_CHECKS ensures !Fails(d, r, isFresh, dim) { assert dim !in v.failed; }
    }
  }

  // ---- stronger requirements ------------------------------------------------------------

  predicate SameIfSet<T(==)>(weak: Option<T>, strong: Option<T>) {
    weak.Some? ==> strong == weak
  }

  predicate AtLeast(weak: Option<U64>, strong: Option<U64>) {
    weak.Some? ==> strong.Some? && weak.value <= strong.value
  }

  /** `q` sets every field `r` sets, to the same value or to a higher minimum. */
  predicate Stronger(r: Requirement, q: Requirement) {
    && SameIfSet(r.kind, q.kind) && SameIfSet(r.model, q.model) && SameIfSet(r.adapter, q.adapter)
    && SameIfSet(r.runtime, q.runtime) && SameIfSet(r.backend, q.backend) && SameIfSet(r.compiler, q.compiler)
    && SameIfSet(r.toolchain, q.toolchain) && SameIfSet(r.architecture, q.architecture)
    && SameIfSet(r.computeCapability, q.computeCapability) && SameIfSet(r.abi, q.abi) && SameIfSet(r.dtype, q.dtype)
    && SameIfSet(r.layout, q.layout) && SameIfSet(r.shape, q.shape) && SameIfSet(r.specialization, q.specialization)
    && SameIfSet(r.launchGeometry, q.launchGeometry) && SameIfSet(r.tokenizerVocab, q.tokenizerVocab)
    && SameIfSet(r.protocolVersion, q.protocolVersion)
    && AtLeast(r.minModelGeneration, q.minModelGeneration) && AtLeast(r.minAdapterGeneration, q.minAdapterGeneration)
    && AtLeast(r.minToolchainGeneration, q.minToolchainGeneration)
    && AtLeast(r.minDependencyGeneration, q.minDependencyGeneration)
    && AtLeast(r.minPolicyGeneration, q.minPolicyGeneration)
    && AtLeast(r.minArtifactGeneration, q.minArtifactGeneration)
    && (r.requireValid ==> q.requireValid) && (r.requireReusable ==> q.requireReusable)
  }

  predicate Subsequence<T(==)>(a: seq<T>, b: seq<T>) {
    if a == [] then true
    else if b == [] then false
    else if a[|a| - 1] == b[|b| - 1] then Subsequence(a[..|a| - 1], b[..|b| - 1])
    else Subsequence(a, b[..|b| - 1])
  }

  lemma StrongerFails(d: Descriptor, r: Requirement, q: Requirement, isFresh: Freshness, dim: Dimension)
    requires Stronger(r, q) && Fails(d, r, isFresh, dim)
    ensures Fails(d, q, isFresh, dim)
  {
  }

  lemma {:induction false} FailedGrows(d: Descriptor, r: Requirement, q: Requirement, isFresh: Freshness, dims: seq<Dimension>)
    requires Stronger(r, q) && Collections.Distinct(dims)
    ensures Subsequence(FailedIn(d, r, isFresh, dims), FailedIn(d, q, isFresh, dims))
  {
    if dims != [] {
      hide Fails, Stronger;
      var init, last := dims[..|dims| - 1], dims[|dims| - 1];
      FailedGrows(d, r, q, isFresh, init);
      var a, b := FailedIn(d, r, isFresh, init), FailedIn(d, q, isFresh, init);
      assert a + [] == a && b + [] == b;
      if Fails(d, r, isFresh, last) {
        StrongerFails(d, r, q, isFresh, last);
        assert (a + [last])[..|a|] == a && (b + [last])[..|b|] == b;
      } else if Fails(d, q, isFresh, last) {
        FailedInIs(d, r, isFresh, init);
        assert last !in init;
      }
    }
  }

  lemma ChecksDistinct()
    ensures Collections.Distinct(ALL_CHECKS)
  {
  }

  /** Asking for more only adds failed dimensions: the old list is a subsequence of the new
      one, and the outcome is at least as severe. */
  lemma MoreRequiredMoreFailed(d: Descriptor, r: Requirement, q: Requirement, isFresh: Freshness)
    requires Stronger(r, q)
    ensures Subsequence(Evaluation(d, r, isFresh).failed, Evaluation(d, q, isFresh).failed)
    ensures Severity(Evaluation(d, r, isFresh).outcome) <= Severity(Evaluation(d, q, isFresh).outcome)
  {
    ChecksDistinct();
    FailedGrows(d, r, q, isFresh, ALL_CHECKS);
    hide Fails, OutcomeOf, Stronger, FailedIn;
    OutcomeIsWorst(d, r, isFresh);
    OutcomeIsWorst(d, q, isFresh);
    if Evaluation(d, r, isFresh).outcome != Compatible {
      var dim :| dim in ALL_CHECKS && Fails(d, r, isFresh, dim) && Evaluation(d, r, isFresh).outcome == OutcomeOf(d, dim);
      StrongerFails(d, r, q, isFresh, dim);
    }
  }

  // ---- the evaluation as it runs --------------------------------------------------------

  lemma OneMoreCheck(d: Descriptor, q: Requirement, f: Freshness, done: seq<Dimension>, dim: Dimension)
    ensures var v := Evaluated(d, q, f, done); var o := OutcomeOf(d, dim);
      Evaluated(d, q, f, done + [dim]) ==
      if Fails(d, q, f, dim)
      then Verdict(if Severity(o) > Severity(v.outcome) then o else v.outcome, v.failed + [dim]) else v
  {
    hide Fails, OutcomeOf, Severity;
    var failed := FailedIn(d, q, f, done);
    assert (done + [dim])[..|done|] == done;
    assert failed + [] == failed && (failed + [dim])[..|failed|] == failed;
  }

  class CompatResult {
    var outcome: CompatOutcome
    var failedDimensions: seq<Dimension>

    ghost function V(): Verdict
      reads this
    {
      Verdict(outcome, failedDimensions)
    }

    constructor ()
      ensures V() == Verdict(Compatible, [])
    {
      outcome, failedDimensions := Compatible, [];
    }

    method Upgrade(o: CompatOutcome)
      modifies this
      ensures V() == Verdict(if Severity(o) > Severity(old(outcome)) then o else old(outcome), old(failedDimensions))
    {
      if Severity(o) > Severity(outcome) { outcome := o; }
    }

    method Fail(dim: Dimension, o: CompatOutcome)
      modifies this
      ensures V() == Verdict(if Severity(o) > Severity(old(outcome)) then o else old(outcome),
                             old(failedDimensions) + [dim])
    {
      failedDimensions := failedDimensions + [dim];
      Upgrade(o);
    }

    /** One check of the list. */
    method FailIf(failing: bool, dim: Dimension, o: CompatOutcome,
                  ghost d: Descriptor, ghost q: Requirement, ghost f: Freshness, ghost done: seq<Dimension>)
      requires V() == Evaluated(d, q, f, done)
      requires failing == Fails(d, q, f, dim) && (failing ==> o == OutcomeOf(d, dim))
      modifies this
      ensures V() == Evaluated(d, q, f, done + [dim])
    {
      hide Evaluated, Fails, OutcomeOf;
      OneMoreCheck(d, q, f, done, dim);
      if failing { Fail(dim, o); }
    }
  }

  /** The maximum of the dependency generations, zero when there are none. */
  method GreatestGeneration(deps: seq<DependencyRef>) returns (g: U64)
    ensures forall i :: 0 <= i < |deps| ==> deps[i].generation <= g
    ensures g == 0 || exists i :: 0 <= i < |deps| && deps[i].generation == g
  {
    g := 0;
    for i := 0 to |deps|
      invariant forall j :: 0 <= j < i ==> deps[j].generation <= g
      invariant g == 0 || exists j :: 0 <= j < i && deps[j].generation == g
    {
      if deps[i].generation > g { g := deps[i].generation; }
    }
  }

  method DependenciesTooOld(d: Descriptor, q: Requirement, ghost f: Freshness) returns (tooOld: bool)
    ensures tooOld == Fails(d, q, f, DependencyGenerationDim)
  {
    if q.minDependencyGeneration.None? { return false; }
    var effective := GreatestGeneration(d.dependencies);
    tooOld := effective < q.minDependencyGeneration.value;
  }

  method AnyStale(deps: seq<DependencyRef>, isFresh: Id -> bool) returns (stale: bool)
    ensures stale <==> exists i :: 0 <= i < |deps| && !isFresh(deps[i].artifact)
  {
    for i := 0 to |deps|
      invariant forall j :: 0 <= j < i ==> isFresh(deps[j].artifact)
    {
      if !isFresh(deps[i].artifact) { return true; }
    }
    stale := false;
  }

  method CheckState(r: CompatResult, d: Descriptor, q: Requirement, ghost f: Freshness, ghost done: seq<Dimension>)
    requires r.V() == Evaluated(d, q, f, done)
    modifies r
    ensures r.V() == Evaluated(d, q, f, done + STATE_CHECKS)
  {
    hide Evaluated;
    var l := d.lifecycle;
    var lifecycleFails := q.requireReusable && (l == SUPERSEDED || l == QUARANTINED || l == INVALIDATED
                                                || l == EVICTED || l == RETIRED || l == FAILED);
    var lifecycleOutcome :=
      if l == SUPERSEDED then Outdated else if l == QUARANTINED || l == INVALIDATED then WasInvalidated else Incompatible;
    ghost var so := done;
    r.FailIf(q.requireValid && d.validation != VALIDATED,
             ValidationDim, if d.validation == INTEGRITY_FAILURE then IntegrityBroken else WasInvalidated, d, q, f, so);
    so := so + [ValidationDim];
    r.FailIf(lifecycleFails,
             LifecycleDim, lifecycleOutcome, d, q, f, so);
    so := so + [LifecycleDim];
    assert so == done + STATE_CHECKS;
  }

  method CheckIdentity(r: CompatResult, d: Descriptor, q: Requirement, ghost f: Freshness, ghost done: seq<Dimension>)
    requires r.V() == Evaluated(d, q, f, done)
    modifies r
    ensures r.V() == Evaluated(d, q, f, done + IDENTITY_CHECKS)
  {
    hide Evaluated;
    ghost var so := done;
    r.FailIf(q.kind.Some? && d.kind != q.kind.value,
             KindDim, Incompatible, d, q, f, so);
    so := so + [KindDim];
    r.FailIf(q.model.Some? && (d.model.None? || d.model.value != q.model.value),
             ModelDim, Incompatible, d, q, f, so);
    so := so + [ModelDim];
    r.FailIf(q.adapter.Some? && (d.adapter.None? || d.adapter.value != q.adapter.value),
             AdapterDim, Incompatible, d, q, f, so);
    so := so + [AdapterDim];
    r.FailIf(q.runtime.Some? && (d.runtime.None? || d.runtime.value != q.runtime.value),
             RuntimeDim, Incompatible, d, q, f, so);
    so := so + [RuntimeDim];
    assert so == done + IDENTITY_CHECKS;
  }

  method CheckTools(r: CompatResult, d: Descriptor, q: Requirement, ghost f: Freshness, ghost done: seq<Dimension>)
    requires r.V() == Evaluated(d, q, f, done)
    modifies r
    ensures r.V() == Evaluated(d, q, f, done + TOOL_CHECKS)
  {
    hide Evaluated;
    ghost var so := done;
    r.FailIf(q.backend.Some? && (d.backend.None? || d.backend.value != q.backend.value),
             BackendDim, Incompatible, d, q, f, so);
    so := so + [BackendDim];
    r.FailIf(q.compiler.Some? && (d.compiler.None? || d.compiler.value != q.compiler.value),
             CompilerDim, Incompatible, d, q, f, so);
    so := so + [CompilerDim];
    r.FailIf(q.toolchain.Some? && (d.toolchain.None? || d.toolchain.value != q.toolchain.value),
             ToolchainDim, ToolchainMismatch, d, q, f, so);
    so := so + [ToolchainDim];
    assert so == done + TOOL_CHECKS;
  }

  method CheckMachine(r: CompatResult, d: Descriptor, q: Requirement, ghost f: Freshness, ghost done: seq<Dimension>)
    requires r.V() == Evaluated(d, q, f, done)
    modifies r
    ensures r.V() == Evaluated(d, q, f, done + MACHINE_CHECKS)
  {
    hide Evaluated;
    ghost var so := done;
    r.FailIf(q.architecture.Some? && d.architecture != q.architecture.value,
             ArchitectureDim, ArchMismatch, d, q, f, so);
    so := so + [ArchitectureDim];
    r.FailIf(q.computeCapability.Some? && d.computeCapability != q.computeCapability.value,
             ComputeCapabilityDim, ArchMismatch, d, q, f, so);
    so := so + [ComputeCapabilityDim];
    r.FailIf(q.abi.Some? && d.abi != q.abi.value,
             AbiDim, AbiMismatch, d, q, f, so);
    so := so + [AbiDim];
    assert so == done + MACHINE_CHECKS;
  }

  method CheckForm(r: CompatResult, d: Descriptor, q: Requirement, ghost f: Freshness, ghost done: seq<Dimension>)
    requires r.V() == Evaluated(d, q, f, done)
    modifies r
    ensures r.V() == Evaluated(d, q, f, done + FORM_CHECKS)
  {
    hide Evaluated;
    ghost var so := done;
    r.FailIf(q.dtype.Some? && d.dtype != q.dtype.value,
             DtypeDim, Incompatible, d, q, f, so);
    so := so + [DtypeDim];
    r.FailIf(q.layout.Some? && d.layout != q.layout.value,
             LayoutDim, Incompatible, d, q, f, so);
    so := so + [LayoutDim];
    r.FailIf(q.shape.Some? && d.shape != q.shape.value,
             ShapeDim, Incompatible, d, q, f, so);
    so := so + [ShapeDim];
    r.FailIf(q.specialization.Some? && d.shape != q.specialization.value,
             SpecializationDim, Incompatible, d, q, f, so);
    so := so + [SpecializationDim];
    assert so == done + FORM_CHECKS;
  }

  method CheckLaunch(r: CompatResult, d: Descriptor, q: Requirement, ghost f: Freshness, ghost done: seq<Dimension>)
    requires r.V() == Evaluated(d, q, f, done)
    modifies r
    ensures r.V() == Evaluated(d, q, f, done + LAUNCH_CHECKS)
  {
    hide Evaluated;
    ghost var so := done;
    r.FailIf(q.launchGeometry.Some? && d.launchMetadata != q.launchGeometry.value,
             LaunchGeometryDim, Incompatible, d, q, f, so);
    so := so + [LaunchGeometryDim];
    r.FailIf(q.tokenizerVocab.Some? && !Occurs(d.reuseMetadata, q.tokenizerVocab.value),
             TokenizerVocabDim, Incompatible, d, q, f, so);
    so := so + [TokenizerVocabDim];
    assert so == done + LAUNCH_CHECKS;
  }

  method CheckSourceGenerations(r: CompatResult, d: Descriptor, q: Requirement, ghost f: Freshness, ghost done: seq<Dimension>)
    requires r.V() == Evaluated(d, q, f, done)
    modifies r
    ensures r.V() == Evaluated(d, q, f, done + SOURCE_GENERATION_CHECKS)
  {
    hide Evaluated;
    ghost var so := done;
    r.FailIf(q.minModelGeneration.Some?
             && !(d.modelGeneration.Some? && d.modelGeneration.value >= q.minModelGeneration.value),
             ModelGenerationDim, GenerationMismatch, d, q, f, so);
    so := so + [ModelGenerationDim];
    r.FailIf(q.minAdapterGeneration.Some?
             && !(d.adapterGeneration.Some? && d.adapterGeneration.value >= q.minAdapterGeneration.value),
             AdapterGenerationDim, GenerationMismatch, d, q, f, so);
    so := so + [AdapterGenerationDim];
    r.FailIf(q.minToolchainGeneration.Some? && d.toolchainGeneration < q.minToolchainGeneration.value,
             ToolchainGenerationDim, ToolchainMismatch, d, q, f, so);
    so := so + [ToolchainGenerationDim];
    assert so == done + SOURCE_GENERATION_CHECKS;
  }

  method CheckOwnGenerations(r: CompatResult, d: Descriptor, q: Requirement, ghost f: Freshness, ghost done: seq<Dimension>)
    requires r.V() == Evaluated(d, q, f, done)
    modifies r
    ensures r.V() == Evaluated(d, q, f, done + OWN_GENERATION_CHECKS)
  {
    hide Evaluated;
    var tooOld := DependenciesTooOld(d, q, f);
    ghost var so := done;
    r.FailIf(tooOld, DependencyGenerationDim, DependencyStale, d, q, f, so);
    so := so + [DependencyGenerationDim];
    r.FailIf(q.minPolicyGeneration.Some? && d.policyGeneration < q.minPolicyGeneration.value,
             PolicyGenerationDim, Outdated, d, q, f, so);
    so := so + [PolicyGenerationDim];
    r.FailIf(q.minArtifactGeneration.Some? && d.generation < q.minArtifactGeneration.value,
             ArtifactGenerationDim, GenerationMismatch, d, q, f, so);
    so := so + [ArtifactGenerationDim];
    r.FailIf(q.protocolVersion.Some? && q.protocolVersion.value != PROTOCOL_VERSION,
             ProtocolVersionDim, Incompatible, d, q, f, so);
    so := so + [ProtocolVersionDim];
    assert so == done + OWN_GENERATION_CHECKS;
  }

  /** `evaluate_compatibility`. */
  method EvaluateCompatibility(d: Descriptor, q: Requirement, isFresh: Freshness) returns (r: CompatResult)
    ensures r.V() == Evaluation(d, q, isFresh)
  {
    hide Evaluated;
    r := new CompatResult();
    NothingChecked(d, q, isFresh);
    ghost var so: seq<Dimension> := [];
    CheckState(r, d, q, isFresh, so);
    so := so + STATE_CHECKS;
    CheckIdentity(r, d, q, isFresh, so);
    so := so + IDENTITY_CHECKS;
    CheckTools(r, d, q, isFresh, so);
    so := so + TOOL_CHECKS;
    CheckMachine(r, d, q, isFresh, so);
    so := so + MACHINE_CHECKS;
    CheckForm(r, d, q, isFresh, so);
    so := so + FORM_CHECKS;
    CheckLaunch(r, d, q, isFresh, so);
    so := so + LAUNCH_CHECKS;
    CheckSourceGenerations(r, d, q, isFresh, so);
    so := so + SOURCE_GENERATION_CHECKS;
    CheckOwnGenerations(r, d, q, isFresh, so);
    so := so + OWN_GENERATION_CHECKS;
    var stale := false;
    if isFresh.Some? { stale := AnyStale(d.dependencies, isFresh.value); }
    r.FailIf(stale, DependencyDim, DependencyStale, d, q, isFresh, so);
    assert so + [DependencyDim] == ALL_CHECKS;
  }

  lemma NothingChecked(d: Descriptor, q: Requirement, f: Freshness)
    ensures Evaluated(d, q, f, []) == Verdict(Compatible, [])
  {
  }
}
