/** What each dimension of a compatibility check looks at, told by whole evaluations: the
    requirement an artifact itself meets, the requirements that differ from it in one field,
    and the fields a dimension does not look at. */
module Dimensions {
  import opened Types
  import opened Compatibility
  import Collections

  /** The greatest of the dependency generations, zero when there are none. */
  predicate Greatest(deps: seq<DependencyRef>, g: U64) {
    && (forall i :: 0 <= i < |deps| ==> deps[i].generation <= g)
    && (g == 0 || exists i :: 0 <= i < |deps| && deps[i].generation == g)
  }

  /** The requirement read off an artifact: every field it has, every minimum its own generation. */
  function Own(d: Descriptor, g: U64): Requirement {
    Requirement(Some(d.kind), d.model, d.modelGeneration, d.adapter, d.adapterGeneration, d.runtime, d.backend,
      d.compiler, d.toolchain, Some(d.toolchainGeneration), Some(d.architecture), Some(d.computeCapability),
      Some(d.abi), Some(d.dtype), Some(d.layout), Some(d.shape), Some(d.shape), Some(d.launchMetadata),
      Some(d.reuseMetadata), Some(g), Some(d.policyGeneration), Some(d.generation), Some(1), true, true)
  }

  predicate Usable(l: LifecycleState) {
    l in {DECLARED, BUILDING, VALIDATING, VALID, PUBLISHED, ACTIVE, STALE}
  }

  predicate AllFresh(d: Descriptor, f: Freshness) {
    f.Some? ==> forall i :: 0 <= i < |d.dependencies| ==> f.value(d.dependencies[i].artifact)
  }

  // ---- which dimensions fail ------------------------------------------------------------

  lemma EveryDimensionListed(dim: Dimension)
    ensures dim in ALL_CHECKS
  {
    match dim
    case ValidationDim => assert ALL_CHECKS[0] == dim;
    case LifecycleDim => assert ALL_CHECKS[1] == dim;
    case KindDim => assert ALL_CHECKS[2] == dim;
    case ModelDim => assert ALL_CHECKS[3] == dim;
    case AdapterDim => assert ALL_CHECKS[4] == dim;
    case RuntimeDim => assert ALL_CHECKS[5] == dim;
    case BackendDim => assert ALL_CHECKS[6] == dim;
    case CompilerDim => assert ALL_CHECKS[7] == dim;
    case ToolchainDim => assert ALL_CHECKS[8] == dim;
    case ArchitectureDim => assert ALL_CHECKS[9] == dim;
    case ComputeCapabilityDim => assert ALL_CHECKS[10] == dim;
    case AbiDim => assert ALL_CHECKS[11] == dim;
    case DtypeDim => assert ALL_CHECKS[12] == dim;
    case LayoutDim => assert ALL_CHECKS[13] == dim;
    case ShapeDim => assert ALL_CHECKS[14] == dim;
    case SpecializationDim => assert ALL_CHECKS[15] == dim;
    case LaunchGeometryDim => assert ALL_CHECKS[16] == dim;
    case TokenizerVocabDim => assert ALL_CHECKS[17] == dim;
    case ModelGenerationDim => assert ALL_CHECKS[18] == dim;
    case AdapterGenerationDim => assert ALL_CHECKS[19] == dim;
    case ToolchainGenerationDim => assert ALL_CHECKS[20] == dim;
    case DependencyGenerationDim => assert ALL_CHECKS[21] == dim;
    case PolicyGenerationDim => assert ALL_CHECKS[22] == dim;
    case ArtifactGenerationDim => assert ALL_CHECKS[23] == dim;
    case ProtocolVersionDim => assert ALL_CHECKS[24] == dim;
    case DependencyDim => assert ALL_CHECKS[25] == dim;
  }

  ghost predicate FailsAlone(d: Descriptor, r: Requirement, f: Freshness, dim: Dimension) {
    forall x :: Fails(d, r, f, x) <==> x == dim
  }

  lemma {:induction false} FailedAlone(d: Descriptor, r: Requirement, f: Freshness, dim: Dimension, dims: seq<Dimension>)
    requires FailsAlone(d, r, f, dim) && Collections.Distinct(dims)
    ensures FailedIn(d, r, f, dims) == if dim in dims then [dim] else []
  {
    if dims == [] {
    } else {
      hide Fails;
      var init, last := dims[..|dims| - 1], dims[|dims| - 1];
      assert dims == init + [last];
      FailedAlone(d, r, f, dim, init);
    }
  }

  lemma AloneIsVerdict(d: Descriptor, r: Requirement, f: Freshness, dim: Dimension)
    requires FailsAlone(d, r, f, dim)
    ensures Evaluation(d, r, f) == Verdict(OutcomeOf(d, dim), [dim])
  {
    hide Fails, OutcomeOf, FailedIn;
    ChecksDistinct();
    EveryDimensionListed(dim);
    FailedAlone(d, r, f, dim, ALL_CHECKS);
    PositiveSeverity(d, dim);
    assert [dim][..|[dim]| - 1] == [];
    assert WorstOf(d, []) == Compatible;
  }

  lemma NothingFails(d: Descriptor, r: Requirement, f: Freshness)
    ensures Evaluation(d, r, f) == Verdict(Compatible, []) <==> forall x :: !Fails(d, r, f, x)
  {
    hide Fails, OutcomeOf, FailedIn;
    FailedInIs(d, r, f, ALL_CHECKS);
    var failed := FailedIn(d, r, f, ALL_CHECKS);
    if failed == [] {
      forall x ensures !Fails(d, r, f, x) { EveryDimensionListed(x); assert x !in failed; }
    } else {
      assert failed[0] in failed;
    }
  }

  // ---- the artifact's own requirement ---------------------------------------------------

  lemma OwnFails(d: Descriptor, g: U64, f: Freshness, x: Dimension)
    requires Greatest(d.dependencies, g)
    ensures Fails(d, Own(d, g), f, x) <==>
      || (x == ValidationDim && d.validation != VALIDATED) || (x == LifecycleDim && !Usable(d.lifecycle))
      || (x == DependencyDim && !AllFresh(d, f))
  {
    assert OccursAt(d.reuseMetadata, d.reuseMetadata, 0);
  }

  /** An artifact is compatible with the requirement read off itself exactly when it is
      validated, in a usable state, and has fresh dependencies only. */
  lemma OwnRequirementMetIff(d: Descriptor, g: U64, f: Freshness)
    requires Greatest(d.dependencies, g)
    ensures Evaluation(d, Own(d, g), f) == Verdict(Compatible, []) <==>
      d.validation == VALIDATED && Usable(d.lifecycle) && AllFresh(d, f)
  {
    hide Fails, Own, Evaluation;
    NothingFails(d, Own(d, g), f);
    forall x ensures Fails(d, Own(d, g), f, x) <==>
      || (x == ValidationDim && d.validation != VALIDATED) || (x == LifecycleDim && !Usable(d.lifecycle))
      || (x == DependencyDim && !AllFresh(d, f))
    {
      OwnFails(d, g, f, x);
    }
    OwnFails(d, g, f, ValidationDim);
    OwnFails(d, g, f, LifecycleDim);
    OwnFails(d, g, f, DependencyDim);
  }

  predicate Fit(d: Descriptor, g: U64, f: Freshness) {
    Greatest(d.dependencies, g) && d.validation == VALIDATED && Usable(d.lifecycle) && AllFresh(d, f)
  }

  /** What is wrong with the artifact itself is reported as that alone. */
  lemma StateReported(d: Descriptor, g: U64, f: Freshness)
    requires Greatest(d.dependencies, g)
    ensures d.validation != VALIDATED && Usable(d.lifecycle) && AllFresh(d, f) ==>
              Evaluation(d, Own(d, g), f) ==
              Verdict(if d.validation == INTEGRITY_FAILURE then IntegrityBroken else WasInvalidated, [ValidationDim])
    ensures d.validation == VALIDATED && d.lifecycle == SUPERSEDED && AllFresh(d, f) ==>
              Evaluation(d, Own(d, g), f) == Verdict(Outdated, [LifecycleDim])
    ensures d.validation == VALIDATED && d.lifecycle in {QUARANTINED, INVALIDATED} && AllFresh(d, f) ==>
              Evaluation(d, Own(d, g), f) == Verdict(WasInvalidated, [LifecycleDim])
    ensures d.validation == VALIDATED && d.lifecycle in {EVICTED, RETIRED, FAILED} && AllFresh(d, f) ==>
              Evaluation(d, Own(d, g), f) == Verdict(Incompatible, [LifecycleDim])
    ensures d.validation == VALIDATED && Usable(d.lifecycle) && !AllFresh(d, f) ==>
              Evaluation(d, Own(d, g), f) == Verdict(DependencyStale, [DependencyDim])
  {
    hide Fails, Own, Evaluation, AllFresh, Greatest;
    forall x ensures Fails(d, Own(d, g), f, x) <==>
      || (x == ValidationDim && d.validation != VALIDATED) || (x == LifecycleDim && !Usable(d.lifecycle))
      || (x == DependencyDim && !AllFresh(d, f))
    {
      OwnFails(d, g, f, x);
    }
    if FailsAlone(d, Own(d, g), f, ValidationDim) { AloneIsVerdict(d, Own(d, g), f, ValidationDim); }
    if FailsAlone(d, Own(d, g), f, LifecycleDim) { AloneIsVerdict(d, Own(d, g), f, LifecycleDim); }
    if FailsAlone(d, Own(d, g), f, DependencyDim) { AloneIsVerdict(d, Own(d, g), f, DependencyDim); }
  }

  // ---- one field of the requirement changed ---------------------------------------------

  /** `r` and `q` agree on the one demand that `dim` is about. */
  predicate SameDemand(r: Requirement, q: Requirement, dim: Dimension) {
    match dim
    case ValidationDim => r.requireValid == q.requireValid
    case LifecycleDim => r.requireReusable == q.requireReusable
    case KindDim => r.kind == q.kind
    case ModelDim => r.model == q.model
    case AdapterDim => r.adapter == q.adapter
    case RuntimeDim => r.runtime == q.runtime
    case BackendDim => r.backend == q.backend
    case CompilerDim => r.compiler == q.compiler
    case ToolchainDim => r.toolchain == q.toolchain
    case ArchitectureDim => r.architecture == q.architecture
    case ComputeCapabilityDim => r.computeCapability == q.computeCapability
    case AbiDim => r.abi == q.abi
    case DtypeDim => r.dtype == q.dtype
    case LayoutDim => r.layout == q.layout
    case ShapeDim => r.shape == q.shape
    case SpecializationDim => r.specialization == q.specialization
    case LaunchGeometryDim => r.launchGeometry == q.launchGeometry
    case TokenizerVocabDim => r.tokenizerVocab == q.tokenizerVocab
    case ModelGenerationDim => r.minModelGeneration == q.minModelGeneration
    case AdapterGenerationDim => r.minAdapterGeneration == q.minAdapterGeneration
    case ToolchainGenerationDim => r.minToolchainGeneration == q.minToolchainGeneration
    case DependencyGenerationDim => r.minDependencyGeneration == q.minDependencyGeneration
    case PolicyGenerationDim => r.minPolicyGeneration == q.minPolicyGeneration
    case ArtifactGenerationDim => r.minArtifactGeneration == q.minArtifactGeneration
    case ProtocolVersionDim => r.protocolVersion == q.protocolVersion
    case DependencyDim => true
  }

  /** `r` and `q` agree on every demand but that of `dim`. */
  predicate SameElsewhere(r: Requirement, q: Requirement, dim: Dimension) {
    forall x: Dimension :: x != dim ==> SameDemand(r, q, x)
  }

  lemma FailsElsewhere(d: Descriptor, r: Requirement, q: Requirement, f: Freshness, x: Dimension)
    requires SameDemand(r, q, x)
    ensures Fails(d, r, f, x) == Fails(d, q, f, x)
  {
    hide Occurs;
  }

  lemma ChangedAlone(d: Descriptor, g: U64, f: Freshness, q: Requirement, dim: Dimension)
    requires Fit(d, g, f) && SameElsewhere(Own(d, g), q, dim) && Fails(d, q, f, dim)
    ensures Evaluation(d, q, f) == Verdict(OutcomeOf(d, dim), [dim])
  {
    hide Fails, Own, SameDemand, Evaluation, OutcomeOf, Greatest, AllFresh;
    forall x ensures Fails(d, q, f, x) <==> x == dim {
      OwnFails(d, g, f, x);
      if x != dim { FailsElsewhere(d, Own(d, g), q, f, x); }
    }
    AloneIsVerdict(d, q, f, dim);
  }

  /** Asking for another identity fails in that dimension alone. */
  lemma AnotherIdentity(d: Descriptor, g: U64, f: Freshness, kind: ArtifactKind, model: Id, adapter: Id, runtime: Id)
    requires Fit(d, g, f)
    ensures kind != d.kind ==>
              Evaluation(d, Own(d, g).(kind := Some(kind)), f) == Verdict(Incompatible, [KindDim])
    ensures Some(model) != d.model ==>
              Evaluation(d, Own(d, g).(model := Some(model)), f) == Verdict(Incompatible, [ModelDim])
    ensures Some(adapter) != d.adapter ==>
              Evaluation(d, Own(d, g).(adapter := Some(adapter)), f) == Verdict(Incompatible, [AdapterDim])
    ensures Some(runtime) != d.runtime ==>
              Evaluation(d, Own(d, g).(runtime := Some(runtime)), f) == Verdict(Incompatible, [RuntimeDim])
  {
    hide Fit, Evaluation;
    var r := Own(d, g);
    if kind != d.kind { ChangedAlone(d, g, f, r.(kind := Some(kind)), KindDim); }
    if Some(model) != d.model { ChangedAlone(d, g, f, r.(model := Some(model)), ModelDim); }
    if Some(adapter) != d.adapter { ChangedAlone(d, g, f, r.(adapter := Some(adapter)), AdapterDim); }
    if Some(runtime) != d.runtime { ChangedAlone(d, g, f, r.(runtime := Some(runtime)), RuntimeDim); }
  }

  lemma AnotherTool(d: Descriptor, g: U64, f: Freshness, backend: Id, compiler: Id, toolchain: Id)
    requires Fit(d, g, f)
    ensures Some(backend) != d.backend ==>
              Evaluation(d, Own(d, g).(backend := Some(backend)), f) == Verdict(Incompatible, [BackendDim])
    ensures Some(compiler) != d.compiler ==>
              Evaluation(d, Own(d, g).(compiler := Some(compiler)), f) == Verdict(Incompatible, [CompilerDim])
    ensures Some(toolchain) != d.toolchain ==>
              Evaluation(d, Own(d, g).(toolchain := Some(toolchain)), f) == Verdict(ToolchainMismatch, [ToolchainDim])
  {
    hide Fit, Evaluation;
    var r := Own(d, g);
    if Some(backend) != d.backend { ChangedAlone(d, g, f, r.(backend := Some(backend)), BackendDim); }
    if Some(compiler) != d.compiler { ChangedAlone(d, g, f, r.(compiler := Some(compiler)), CompilerDim); }
    if Some(toolchain) != d.toolchain { ChangedAlone(d, g, f, r.(toolchain := Some(toolchain)), ToolchainDim); }
  }

  lemma AnotherMachine(d: Descriptor, g: U64, f: Freshness, architecture: Bytes, capability: Bytes, abi: Bytes)
    requires Fit(d, g, f)
    ensures architecture != d.architecture ==>
              Evaluation(d, Own(d, g).(architecture := Some(architecture)), f) == Verdict(ArchMismatch, [ArchitectureDim])
    ensures capability != d.computeCapability ==>
              Evaluation(d, Own(d, g).(computeCapability := Some(capability)), f) ==
              Verdict(ArchMismatch, [ComputeCapabilityDim])
    ensures abi != d.abi ==>
              Evaluation(d, Own(d, g).(abi := Some(abi)), f) == Verdict(AbiMismatch, [AbiDim])
  {
    hide Fit, Evaluation;
    var r := Own(d, g);
    if architecture != d.architecture { ChangedAlone(d, g, f, r.(architecture := Some(architecture)), ArchitectureDim); }
    if capability != d.computeCapability {
      ChangedAlone(d, g, f, r.(computeCapability := Some(capability)), ComputeCapabilityDim);
    }
    if abi != d.abi { ChangedAlone(d, g, f, r.(abi := Some(abi)), AbiDim); }
  }

  /** The specialisation is asked of the shape. */
  lemma AnotherForm(d: Descriptor, g: U64, f: Freshness, text: Bytes)
    requires Fit(d, g, f)
    ensures text != d.dtype ==>
              Evaluation(d, Own(d, g).(dtype := Some(text)), f) == Verdict(Incompatible, [DtypeDim])
    ensures text != d.layout ==>
              Evaluation(d, Own(d, g).(layout := Some(text)), f) == Verdict(Incompatible, [LayoutDim])
    ensures text != d.shape ==>
              Evaluation(d, Own(d, g).(shape := Some(text)), f) == Verdict(Incompatible, [ShapeDim])
    ensures text != d.shape ==>
              Evaluation(d, Own(d, g).(specialization := Some(text)), f) == Verdict(Incompatible, [SpecializationDim])
  {
    hide Fit, Evaluation;
    var r := Own(d, g);
    if text != d.dtype { ChangedAlone(d, g, f, r.(dtype := Some(text)), DtypeDim); }
    if text != d.layout { ChangedAlone(d, g, f, r.(layout := Some(text)), LayoutDim); }
    if text != d.shape {
      ChangedAlone(d, g, f, r.(shape := Some(text)), ShapeDim);
      ChangedAlone(d, g, f, r.(specialization := Some(text)), SpecializationDim);
    }
  }

  /** The launch geometry is asked of the launch metadata, and the tokenizer's vocabulary
      anywhere in the reuse metadata. */
  lemma AnotherLaunch(d: Descriptor, g: U64, f: Freshness, text: Bytes)
    requires Fit(d, g, f)
    ensures text != d.launchMetadata ==>
              Evaluation(d, Own(d, g).(launchGeometry := Some(text)), f) == Verdict(Incompatible, [LaunchGeometryDim])
    ensures (forall i, j :: 0 <= i <= j <= |d.reuseMetadata| ==> d.reuseMetadata[i..j] != text) ==>
              Evaluation(d, Own(d, g).(tokenizerVocab := Some(text)), f) == Verdict(Incompatible, [TokenizerVocabDim])
  {
    hide Fit, Evaluation;
    var r := Own(d, g);
    if text != d.launchMetadata { ChangedAlone(d, g, f, r.(launchGeometry := Some(text)), LaunchGeometryDim); }
    if forall i, j :: 0 <= i <= j <= |d.reuseMetadata| ==> d.reuseMetadata[i..j] != text {
      ChangedAlone(d, g, f, r.(tokenizerVocab := Some(text)), TokenizerVocabDim);
    }
  }

  /** Whatever occurs in the reuse metadata will do. */
  lemma AnyVocabularyThere(d: Descriptor, g: U64, f: Freshness, i: nat, j: nat)
    requires Fit(d, g, f) && i <= j <= |d.reuseMetadata|
    ensures Evaluation(d, Own(d, g).(tokenizerVocab := Some(d.reuseMetadata[i..j])), f) == Verdict(Compatible, [])
  {
    hide Fails, Own, SameElsewhere, Evaluation, Greatest, AllFresh;
    var q := Own(d, g).(tokenizerVocab := Some(d.reuseMetadata[i..j]));
    NothingFails(d, q, f);
    forall x ensures !Fails(d, q, f, x) {
      OwnFails(d, g, f, x);
      if x != TokenizerVocabDim {
        VocabularyElsewhere(Own(d, g), Some(d.reuseMetadata[i..j]));
        FailsElsewhere(d, Own(d, g), q, f, x);
      } else {
        VocabularyThere(d, q, f, i, j);
      }
    }
  }

  lemma VocabularyElsewhere(r: Requirement, vocab: Option<Bytes>)
    ensures SameElsewhere(r, r.(tokenizerVocab := vocab), TokenizerVocabDim)
  {
  }

  lemma VocabularyThere(d: Descriptor, q: Requirement, f: Freshness, i: nat, j: nat)
    requires i <= j <= |d.reuseMetadata| && q.tokenizerVocab == Some(d.reuseMetadata[i..j])
    ensures !Fails(d, q, f, TokenizerVocabDim)
  {
    assert OccursAt(d.reuseMetadata, d.reuseMetadata[i..j], i);
  }

  /** Asking for a higher generation of the sources fails in that dimension alone; an artifact
      without one cannot meet any minimum. */
  lemma HigherSourceGeneration(d: Descriptor, g: U64, f: Freshness, n: U64)
    requires Fit(d, g, f)
    ensures (d.modelGeneration.None? || d.modelGeneration.value < n) ==>
              Evaluation(d, Own(d, g).(minModelGeneration := Some(n)), f) == Verdict(GenerationMismatch, [ModelGenerationDim])
    ensures (d.adapterGeneration.None? || d.adapterGeneration.value < n) ==>
              Evaluation(d, Own(d, g).(minAdapterGeneration := Some(n)), f) ==
              Verdict(GenerationMismatch, [AdapterGenerationDim])
    ensures d.toolchainGeneration < n ==>
              Evaluation(d, Own(d, g).(minToolchainGeneration := Some(n)), f) ==
              Verdict(ToolchainMismatch, [ToolchainGenerationDim])
  {
    hide Fit, Evaluation;
    var r := Own(d, g);
    if d.modelGeneration.None? || d.modelGeneration.value < n {
      ChangedAlone(d, g, f, r.(minModelGeneration := Some(n)), ModelGenerationDim);
    }
    if d.adapterGeneration.None? || d.adapterGeneration.value < n {
      ChangedAlone(d, g, f, r.(minAdapterGeneration := Some(n)), AdapterGenerationDim);
    }
    if d.toolchainGeneration < n { ChangedAlone(d, g, f, r.(minToolchainGeneration := Some(n)), ToolchainGenerationDim); }
  }

  lemma AllBelow(d: Descriptor, g: U64, q: Requirement, f: Freshness, n: U64)
    requires Greatest(d.dependencies, g) && g < n && q.minDependencyGeneration == Some(n)
    ensures Fails(d, q, f, DependencyGenerationDim)
  {
  }

  /** What counts of the dependencies is their greatest generation. */
  lemma HigherDependencyGeneration(d: Descriptor, g: U64, f: Freshness, n: U64)
    requires Fit(d, g, f) && g < n
    ensures Evaluation(d, Own(d, g).(minDependencyGeneration := Some(n)), f) ==
            Verdict(DependencyStale, [DependencyGenerationDim])
  {
    hide Evaluation, Fails, AllFresh, Usable, Greatest;
    var q := Own(d, g).(minDependencyGeneration := Some(n));
    AllBelow(d, g, q, f, n);
    ChangedAlone(d, g, f, q, DependencyGenerationDim);
  }

  lemma HigherOwnGeneration(d: Descriptor, g: U64, f: Freshness, n: U64, version: int)
    requires Fit(d, g, f)
    ensures d.policyGeneration < n ==>
              Evaluation(d, Own(d, g).(minPolicyGeneration := Some(n)), f) == Verdict(Outdated, [PolicyGenerationDim])
    ensures d.generation < n ==>
              Evaluation(d, Own(d, g).(minArtifactGeneration := Some(n)), f) ==
              Verdict(GenerationMismatch, [ArtifactGenerationDim])
    ensures version != 1 ==>
              Evaluation(d, Own(d, g).(protocolVersion := Some(version)), f) == Verdict(Incompatible, [ProtocolVersionDim])
  {
    hide Fit, Evaluation;
    var r := Own(d, g);
    if d.policyGeneration < n { ChangedAlone(d, g, f, r.(minPolicyGeneration := Some(n)), PolicyGenerationDim); }
    if d.generation < n { ChangedAlone(d, g, f, r.(minArtifactGeneration := Some(n)), ArtifactGenerationDim); }
    if version != 1 { ChangedAlone(d, g, f, r.(protocolVersion := Some(version)), ProtocolVersionDim); }
  }

  // ---- the fields a dimension does not look at ------------------------------------------

  /** `d` and `e` agree on the one field that `dim` looks at. */
  predicate SameField(d: Descriptor, e: Descriptor, dim: Dimension) {
    match dim
    case ValidationDim => d.validation == e.validation
    case LifecycleDim => d.lifecycle == e.lifecycle
    case KindDim => d.kind == e.kind
    case ModelDim => d.model == e.model
    case AdapterDim => d.adapter == e.adapter
    case RuntimeDim => d.runtime == e.runtime
    case BackendDim => d.backend == e.backend
    case CompilerDim => d.compiler == e.compiler
    case ToolchainDim => d.toolchain == e.toolchain
    case ArchitectureDim => d.architecture == e.architecture
    case ComputeCapabilityDim => d.computeCapability == e.computeCapability
    case AbiDim => d.abi == e.abi
    case DtypeDim => d.dtype == e.dtype
    case LayoutDim => d.layout == e.layout
    case ShapeDim => d.shape == e.shape
    case SpecializationDim => d.shape == e.shape
    case LaunchGeometryDim => d.launchMetadata == e.launchMetadata
    case TokenizerVocabDim => d.reuseMetadata == e.reuseMetadata
    case ModelGenerationDim => d.modelGeneration == e.modelGeneration
    case AdapterGenerationDim => d.adapterGeneration == e.adapterGeneration
    case ToolchainGenerationDim => d.toolchainGeneration == e.toolchainGeneration
    case DependencyGenerationDim => d.dependencies == e.dependencies
    case PolicyGenerationDim => d.policyGeneration == e.policyGeneration
    case ArtifactGenerationDim => d.generation == e.generation
    case ProtocolVersionDim => true
    case DependencyDim => d.dependencies == e.dependencies
  }

  /** Whatever else changes in a descriptor, a dimension fails as before as long as its own field
      is the same. */
  lemma OtherFieldsDoNotMatter(d: Descriptor, e: Descriptor, r: Requirement, f: Freshness, dim: Dimension)
    requires SameField(d, e, dim)
    ensures dim in Evaluation(d, r, f).failed <==> dim in Evaluation(e, r, f).failed
  {
    FailedInIs(d, r, f, ALL_CHECKS);
    FailedInIs(e, r, f, ALL_CHECKS);
    hide FailedIn, OutcomeOf;
    EveryDimensionListed(dim);
  }

  /** Nor does any other demand. */
  lemma OtherDemandsDoNotMatter(d: Descriptor, r: Requirement, q: Requirement, f: Freshness, dim: Dimension)
    requires SameDemand(r, q, dim)
    ensures dim in Evaluation(d, r, f).failed <==> dim in Evaluation(d, q, f).failed
  {
    hide Fails, FailedIn, OutcomeOf, SameDemand;
    FailedInIs(d, r, f, ALL_CHECKS);
    FailedInIs(d, q, f, ALL_CHECKS);
    FailsElsewhere(d, r, q, f, dim);
  }

  /** The outcomes from the worst to the best. */
  const WORST_FIRST := [
    IntegrityBroken, AbiMismatch, ArchMismatch, ToolchainMismatch, GenerationMismatch, DependencyStale, Outdated,
    WasInvalidated, Incompatible, Compatible]

  lemma WorstFirstFalls(i: nat, j: nat)
    requires i < j < |WORST_FIRST|
    ensures Severity(WORST_FIRST[i]) > Severity(WORST_FIRST[j])
  {
    assert Severity(WORST_FIRST[i]) == 9 - i && Severity(WORST_FIRST[j]) == 9 - j;
  }

  /** Of two failed dimensions neither makes the outcome better than the worse of the two: if the
      outcome of one comes before in that list, the evaluation does not come after it. */
  lemma OutcomeNotBetter(d: Descriptor, r: Requirement, f: Freshness, dim: Dimension, i: nat, j: nat)
    requires dim in Evaluation(d, r, f).failed && i < |WORST_FIRST| && j < |WORST_FIRST|
    requires OutcomeOf(d, dim) == WORST_FIRST[i] && Evaluation(d, r, f).outcome == WORST_FIRST[j]
    ensures j <= i
  {
    hide Fails, FailedIn, WorstOf, OutcomeOf, Severity;
    FailedInIs(d, r, f, ALL_CHECKS);
    OutcomeIsWorst(d, r, f);
    if i < j { WorstFirstFalls(i, j); }
  }

  /** The place of each check in the order in which they are made. */
  function Place(dim: Dimension): nat {
    match dim
    case ValidationDim => 0 case LifecycleDim => 1 case KindDim => 2 case ModelDim => 3 case AdapterDim => 4
    case RuntimeDim => 5 case BackendDim => 6 case CompilerDim => 7 case ToolchainDim => 8 case ArchitectureDim => 9
    case ComputeCapabilityDim => 10 case AbiDim => 11 case DtypeDim => 12 case LayoutDim => 13 case ShapeDim => 14
    case SpecializationDim => 15 case LaunchGeometryDim => 16 case TokenizerVocabDim => 17
    case ModelGenerationDim => 18 case AdapterGenerationDim => 19 case ToolchainGenerationDim => 20
    case DependencyGenerationDim => 21 case PolicyGenerationDim => 22 case ArtifactGenerationDim => 23
    case ProtocolVersionDim => 24 case DependencyDim => 25
  }

  ghost predicate InPlace(dims: seq<Dimension>) {
    forall i, j :: 0 <= i < j < |dims| ==> Place(dims[i]) < Place(dims[j])
  }

  lemma {:induction false} FailedInPlace(d: Descriptor, r: Requirement, f: Freshness, dims: seq<Dimension>)
    requires InPlace(dims)
    ensures InPlace(FailedIn(d, r, f, dims))
    ensures forall x :: x in FailedIn(d, r, f, dims) ==> x in dims
  {
    if dims == [] {
    } else {
      hide Fails, Place;
      var init, last := dims[..|dims| - 1], dims[|dims| - 1];
      FailedInPlace(d, r, f, init);
      forall x | x in init ensures Place(x) < Place(last) {
        var i :| 0 <= i < |init| && init[i] == x;
        assert dims[i] == x;
      }
      assert last in dims;
    }
  }

  lemma ChecksInPlace()
    ensures InPlace(ALL_CHECKS)
  {
    forall i | 0 <= i < 26 ensures Place(ALL_CHECKS[i]) == i { }
  }

  /** Failed dimensions are listed in that order. */
  lemma FailedInOrder(d: Descriptor, r: Requirement, f: Freshness)
    ensures InPlace(Evaluation(d, r, f).failed)
  {
    hide FailedIn, Fails, Place;
    ChecksInPlace();
    FailedInPlace(d, r, f, ALL_CHECKS);
  }
}
