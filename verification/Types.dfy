/** The values every other module talks about: machine-width numbers, identifiers,
    enumerations, the artifact descriptor and the outcome of a call that may throw. */
module Types {

  // ---- machine widths -------------------------------------------------------------------

  type Byte = bv8
  type Bytes = seq<Byte>

  type U32 = x: nat | x < 0x1_0000_0000
  type U64 = x: nat | x < 0x1_0000_0000_0000_0000
  type I64 = x: int | -0x8000_0000_0000_0000 <= x < 0x8000_0000_0000_0000

  const U64_MAX: U64 := 0xffff_ffff_ffff_ffff

  /** A 16-byte identifier, read as a big-endian number: the lexicographic order on the
      byte arrays is then the order on the numbers, and the all-zero identifier is 0. */
  type Id = x: nat | x < 0x1_0000_0000_0000_0000_0000_0000_0000_0000

  /** A 32-byte digest, read as a big-endian number. */
  type Digest = x: nat |
    x < 0x1_0000_0000_0000_0000_0000_0000_0000_0000_0000_0000_0000_0000_0000_0000_0000_0000

  /** `static_cast<std::int64_t>` of an unsigned 64-bit number. */
  function ToI64(x: U64): I64 {
    if x < 0x8000_0000_0000_0000 then x else x - 0x1_0000_0000_0000_0000
  }

  // ---- enumerations ---------------------------------------------------------------------

  type ArtifactKind = k: nat | k <= 13
  type DependencyKind = k: nat | k <= 3
  type StorageKind = k: nat | k <= 7

  datatype LifecycleState =
    | DECLARED | BUILDING | VALIDATING | VALID | PUBLISHED | ACTIVE | STALE
    | INVALIDATED | SUPERSEDED | QUARANTINED | EVICTED | RETIRED | FAILED

  /** CHECKING, VALIDATED and QUARANTINE are the source's VALIDATING, VALID and QUARANTINED,
      renamed to keep them apart from the lifecycle states of the same names. */
  datatype ValidationState =
    | UNVALIDATED | CHECKING | INTEGRITY_OK | VALIDATED | INVALID | QUARANTINE | INTEGRITY_FAILURE

  // ---- outcomes -------------------------------------------------------------------------

  datatype Option<+T> = None | Some(value: T)

  datatype Error =
    | StaleEpoch | StaleBoot | StaleArtifactGeneration
    | UnknownArtifact | DuplicateId | RetiredOrEvicted | IllegalTransition
    | SelfDependency | NotANode | DuplicateEdge | CycleRejected | NodeLimit
    | NegativeCounter | NoReservation | GenerationOverflow
    | EncodeLimit
    | Truncated | TooLong | InvalidEnum | NotFinite | BadMagic | BadSchema
    | TrailingGarbage | CrcMismatch | FrameTooShort | BadLength

  /** What a C++ call that may throw does: return a value, or throw. */
  datatype Outcome<+T> = Returned(value: T) | Threw(error: Error) {
    predicate IsFailure() { Threw? }
    function PropagateFailure<U>(): Outcome<U> requires Threw? { Threw(error) }
    function Extract(): T requires Returned? { value }
  }

  // ---- descriptors ----------------------------------------------------------------------

  datatype DependencyRef = DependencyRef(
    artifact: Id, dependencyId: Id, generation: U64, digest: Digest, kind: DependencyKind)

  /** The three floating-point fields are kept as their 64-bit patterns. */
  datatype Placement = Placement(
    id: Id, location: Id, kind: StorageKind, locator: Bytes, byteSize: U64, generation: U64,
    locality: U64, cost: U64, readiness: U64, integrityOk: bool, persistent: bool)

  /** IEEE 754 binary64: infinities and NaNs are the patterns whose exponent is all ones. */
  predicate Finite(bits: U64) {
    bits / 0x10_0000_0000_0000 % 0x800 != 0x7ff
  }

  datatype Descriptor = Descriptor(
    id: Id, kind: ArtifactKind, generation: U64, contentDigest: Digest,
    producer: Id, producerGeneration: U64, provenance: Id, provenanceGeneration: U64,
    createdNs: I64,
    model: Option<Id>, modelGeneration: Option<U64>,
    adapter: Option<Id>, adapterGeneration: Option<U64>,
    runtime: Option<Id>, backend: Option<Id>, compiler: Option<Id>, toolchain: Option<Id>,
    toolchainGeneration: U64,
    architecture: Bytes, computeCapability: Bytes, abi: Bytes, dtype: Bytes, layout: Bytes,
    shape: Bytes, launchMetadata: Bytes,
    dependencies: seq<DependencyRef>,
    dependencyDigest: Digest, metadataDigest: Digest, compatibilityDigest: Digest,
    policyConfig: Bytes, policyGeneration: U64,
    validation: ValidationState, lifecycle: LifecycleState,
    placements: seq<Placement>,
    sizeBytes: U64, reuseMetadata: Bytes, authorityMetadata: Bytes)

  /** The authority under which a mutation claims to run. */
  datatype Authority = Authority(
    epoch: U64, worker: Id, boot: Id, attempt: Id, producer: Id,
    attemptGeneration: U64, producerGeneration: U64, artifactGeneration: U64,
    dependencyGeneration: U64, provenanceGeneration: U64, toolchainGeneration: U64,
    modelGeneration: U64, adapterGeneration: U64, placementGeneration: U64)
}
