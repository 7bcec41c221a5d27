# Artifact Fabric, verified

A Dafny model of the catalog of Artifact Fabric and of the algorithms under it, with proofs of
what they keep.

- **Catalog.** An artifact map, twelve secondary indexes, a reference-counted content store,
  counters, supersession relations and an epoch/boot fence. `CatalogModel.dfy` says what every
  call returns or throws and which state it leaves behind, also when it throws half-way; the
  class in `Catalog.dfy` updates its fields in place and is proved to do exactly that.
  `CatalogEffects.dfy`, `CatalogRuns.dfy`, `References.dfy`, `Ledger.dfy`, `Guards.dfy`,
  `Invalidation.dfy`, `Publication.dfy`, `IndexGaps.dfy`, `Safety.dfy` and `Reusability.dfy`
  prove when calls return and what holds over whole runs; `CatalogImage.dfy`, `ImageFiles.dfy`
  and `Recovery.dfy` deal with saving and loading.
- **Dependency graph.** `Graph.dfy`, `TopologicalOrder.dfy`, `DependencyGraph.dfy`, `Digests.dfy`: cycle
  check, closure, dependents, digest input and Kahn's order with a sorted ready list.
- **Protocols.** `SingleFlight.dfy` and `Retries.dfy` (callers of `get_or_build`),
  `TransactionModel.dfy`, `TransactionRuns.dfy`, `Commits.dfy`, `TransactionRemoval.dfy` and
  `Transactions.dfy` (publish transactions), `Coordinator.dfy`, `Requests.dfy` and
  `Generations.dfy` (fenced requests), each as interleaved atomic steps.
- **Concrete runs.** `FailingRuns.dfy`, `WaitingRun.dfy` and `LostReference.dfy`: short runs in which the program
  does something else than it promises.
- **Formats.** `Codec.dfy` builds self-delimiting formats from parts; `DescriptorFormat.dfy`,
  `Persistence.dfy` and `Protocol.dfy` are the descriptor, the encoder and decoder, and the wire
  protocol.
- **Hashes.** `Crc32.dfy`, `CrcFrames.dfy`, `CrcDivision.dfy` and `Sha256.dfy`. In the catalog
  SHA-256 is a parameter, without collisions among the published contents where that matters.
- **Eligibility.** `Compatibility.dfy`, `Dimensions.dfy`, `Reuse.dfy`, `Lifecycle.dfy`, `Accounting.dfy`.

Exceptions are values of type `Outcome`. Identifiers and digests are numbers in the order of
their bytes. Doubles are 64-bit patterns with a finiteness test. Counters are unbounded
integers; reference counts, epochs and generations wrap or overflow at 64 bits as the program
has it.

Where the code does not do what its documentation or its names suggest, the model follows the
code; a lemma states the exact condition, and another a run in which it happens:

- Loading a saved catalog throws when the declared sizes, taken as signed 64-bit numbers, add up
  to less than zero (`Recovery.RecoveryIsExact`). Sizes close to 2^64, one of them of a retired
  artifact, bring that about with calls that all return (`FailingRuns.ReturningRunNotLoaded`).
- `validate_artifact` never returns normally for a published artifact
  (`CatalogRuns.ValidateReturnsIff`, `FailingRuns.ValidatingThrows`).
- A call that gets past its checks and then throws leaves its artifact out of the indexes, a
  publication the new artifact, an invalidation the one at which it stopped
  (`IndexGaps.CallStrandsIff`, `CatalogRuns.PromoteUnindexesIff`,
  `FailingRuns.PromoteLosesEntry`).
- Counters can become negative: the number of artifacts and the number of stored contents, in a
  retirement, and only in one that throws or after a call that threw (`CounterGuards.NegativeIff`,
  `FailingRuns.NegativeArtifacts`, `FailingRuns.NegativeBacking`). The other counters cannot, and
  none can while every call returns.
- A producer exception with an empty message is taken for success
  (`SingleFlight.EmptyMessageIsSuccess`, `SingleFlight.EmptyMessageBreaksAgreement`).
- Aborting a transaction that produced nothing gives up a reference of somebody else's when a
  content has meanwhile been stored under the digest its descriptor claims
  (`TransactionRemoval.CancelConservesIff`, `TransactionRemoval.ConservedIffClean`); the other
  transaction then commits an artifact without content
  (`LostReference.PublishedWithoutContent`).
- The dependency check of reuse, which a comment calls transitive (src/compat.cpp:98), looks at
  direct dependencies only. An artifact published on something that depends on an invalidated
  artifact can be reported reusable (`FailingRuns.ReusableOnInvalidated`), and so can one that
  named such a publication before it was made (`WaitingRun.WaitingBecomesReusable`). Nothing that
  depends on what was invalidated is ever reported reusable exactly when every later publication
  and registration is harmless (`Reusability.NeverReusableIff`): a publication names nothing that
  was invalidated or depends on it, or has no provenance, no intact placement or a stale direct
  dependency itself; and no artifact that depends on what was invalidated, then or thereby, was
  only waiting for the new one.
- Two different sets of dependencies can have the same dependency digest, because the zero that
  marks an indirect dependency is also a generation an edge can have
  (`DigestDistinctions.UndatedDigestsCollide`). Where the same edges are at generation zero, in
  particular where none is, equal input means equal dependencies, and only there
  (`DigestDistinctions.DigestDistinguishesIff`).
- Publications that leave their generation open and overlap can be given the same one
  (`FailingRuns.OverlapSharesGeneration`), exactly when they read the same next generation
  (`OverlappingPublications.SameGenerationIff`); in sequence they cannot
  (`Publications.GenerationsGrow`).

## Model

| member | source | states |
|---|---|---|
| GraphModel.BuiltGraphs | include/artifact_fabric/dependency.hpp:55-78 | whatever add_node and add_edge calls were made: no cycle, no self-loop, no duplicate edge, and the reverse lists are exactly the inverse of the forward lists |
| GraphModel.EdgeRejectedIff | include/artifact_fabric/dependency.hpp:64-78 | an edge is rejected exactly when an endpoint is unknown, the edge exists already, or it would close a cycle; a rejected edge leaves the graph unchanged |
| GraphModel.AddEdgeKeepsValid | include/artifact_fabric/dependency.hpp:64-78 | add_edge keeps every graph invariant, whether it returns or throws |
| GraphModel.AddNodeKeepsValid | include/artifact_fabric/dependency.hpp:55-60 | add_node keeps every graph invariant |
| DependencyGraphs.DependencyGraph.AddNode | include/artifact_fabric/dependency.hpp:55-60 | throws at the node limit even for a known node, and otherwise adds the node with empty lists |
| DependencyGraphs.DependencyGraph.AddEdge | include/artifact_fabric/dependency.hpp:64-78 | rejects in the order of the source, and otherwise appends the edge and its reverse |
| DependencyGraphs.DependencyGraph.CreatesCycle | include/artifact_fabric/dependency.hpp:179-192 | the stack search terminates and answers exactly whether `to` already reaches `from` |
| DependencyGraphs.DependencyGraph.TransitiveDependencies | include/artifact_fabric/dependency.hpp:87-99 | exactly the nodes reachable in one or more edges, ascending, each once |
| DependencyGraphs.DependencyGraph.Dependents | include/artifact_fabric/dependency.hpp:132-140 | exactly the nodes that transitively depend on the target (the converse relation), ascending |
| DependencyGraphs.DependencyGraph.DigestBytes | include/artifact_fabric/dependency.hpp:104-128 | the bytes fed to the hash: closure in order, generation and digest for direct edges, a zero marker for the others |
| DependencyDigests.DigestIgnoresInsertionOrder | include/artifact_fabric/dependency.hpp:104-128 | graphs with the same edges feed the same bytes for every node, whatever the order of insertion |
| DigestDistinctions.DigestDistinguishesIff | include/artifact_fabric/dependency.hpp:104-128 | two graphs feed the same bytes for a node, with the same of its edges at generation zero, exactly when it has the same transitive dependencies and edges that ask for the same generations and digests |
| DigestDistinctions.DatedDigestsDistinguish | include/artifact_fabric/dependency.hpp:104-128 | with no edge at generation zero: the same bytes exactly when the same dependencies |
| DigestDistinctions.UndatedDigestsCollide | include/artifact_fabric/dependency.hpp:109-125 | two graphs in which a node has different transitive dependencies and its digest is taken over the same bytes |
| DependencyGraphs.DependencyGraph.TopologicalOrder | include/artifact_fabric/dependency.hpp:150-172 | on every graph that can be built it returns, lists each node once with dependents before their dependencies, and no such order is lexicographically smaller |
| DependencyGraphs.DependencyGraph.Release | include/artifact_fabric/dependency.hpp:163-168 | taking away the edges out of one node keeps the counts and the sorted ready list exact |
| TopologicalOrders.GreedyIsLeast | include/artifact_fabric/dependency.hpp:150-172 | always taking the least free node gives the least topological order |
| TopologicalOrders.NoEndlessChain | include/artifact_fabric/dependency.hpp:150-172 | a non-empty set in which every node has a dependent in the set contradicts acyclicity, so the order is complete |
| Crc32.Compute | include/artifact_fabric/hash.hpp:144-158 | the table-driven loop computes the bit-by-bit CRC for every length |
| Crc32.MakeTable | include/artifact_fabric/hash.hpp:145-153 | each table entry is eight bit steps on its index |
| Crc32.TableStep | include/artifact_fabric/hash.hpp:154-157 | one table look-up equals eight bit steps |
| CrcDivision.CrcIsRemainder | include/artifact_fabric/hash.hpp:144-158 | the CRC is the remainder of the complemented message, thirty-two zeros appended, divided by the generator polynomial of section 3.2.9 of IEEE 802.3 |
| CrcFrames.OpenSeal | include/artifact_fabric/persistence.hpp:59-64 | what finalize appends, verify_crc_frame accepts and strips |
| CrcFrames.VerifyCrcFrame | include/artifact_fabric/persistence.hpp:163-174 | the frame check: length, then comparison of the stored and the recomputed CRC |
| CrcFrames.BurstRejected | include/artifact_fabric/persistence.hpp:163-174 | any change confined to four consecutive payload bytes is rejected |
| CrcFrames.TrailerChangeRejected | include/artifact_fabric/persistence.hpp:163-174 | any change of the trailer alone is rejected |
| Sha256Streams.DigestInPieces | include/artifact_fabric/hash.hpp:32-70 | however a message is split over update calls, the digest is the one-shot SHA-256 of the whole |
| Sha256Streams.Digest | include/artifact_fabric/hash.hpp:72-79 | the one-shot digest is SHA-256 as in FIPS 180-4 |
| Sha256Streams.Sha256Stream.Update | include/artifact_fabric/hash.hpp:32-41 | update absorbs the bytes one by one, compressing whenever the buffer is full |
| Sha256Streams.Sha256Stream.Finish | include/artifact_fabric/hash.hpp:52-70 | finish pads, appends the length and returns the digest of everything absorbed |
| Sha256Streams.Sha256Stream.PadWithZeros | include/artifact_fabric/hash.hpp:57-58 | the padding loop terminates, after exactly the zeros the standard asks for |
| Sha256Streams.Sha256Stream.Transform | include/artifact_fabric/hash.hpp:84-120 | transform is the compression function of section 6.2.2 of FIPS 180-4, in place |
| Sha256Standard.PaddingIsLeast | include/artifact_fabric/hash.hpp:54-58 | the number of zero bytes is the least that makes the length 56 modulo 64 |
| Sha256Standard.LengthField | include/artifact_fabric/hash.hpp:59-62 | below 2^64 bits the length field is the exact bit length |
| Streaming.WholeBlocks | include/artifact_fabric/hash.hpp:32-41 | whatever the compression function, absorbing byte by byte compresses exactly the whole blocks in order and keeps the rest |
| Streaming.AbsorbParts | include/artifact_fabric/hash.hpp:32-41 | absorbing two parts in turn is absorbing their concatenation |
| Codec.PairLaw | src/persistence.cpp:75-125 | a pair of formats that read back what they write and do not depend on what follows is such a format |
| Codec.ListLaw | src/persistence.cpp:106-108 | the same for a counted list |
| Codec.BytesLaw | include/artifact_fabric/persistence.hpp:37-41 | the same for length-prefixed bytes with bounds |
| Codec.OptionLaw | src/persistence.cpp:88-95 | the same for an optional field behind a presence flag |
| DescriptorFormat.DescriptorLaw | src/persistence.cpp:75-185 | the descriptor format is self-delimiting and reads back what it wrote, whatever follows |
| DescriptorFormat.StorableIsOk | src/persistence.cpp:75-185 | exactly the descriptors within every bound and with finite placement numbers are within the format |
| DescriptorFormat.DescriptorRoundTrip | src/persistence.cpp:187-199 | of everything the encoder accepts, exactly the descriptors with finite placement numbers are decoded to themselves; the others are rejected |
| DescriptorFormat.DescriptorFramesRigid | src/persistence.cpp:193-199 | every proper truncation and every non-empty extension of an accepted frame is rejected, even if the CRC matches |
| Persistence.Encoder.LittleEndian | include/artifact_fabric/persistence.hpp:31-33 | the byte loops append the little-endian form |
| Encoding.LittleEndianDigit | include/artifact_fabric/persistence.hpp:31-33 | byte i of the little-endian form is the digit of weight 256^i |
| Encoding.BigEndianReversed | include/artifact_fabric/dependency.hpp:114-116 | the big-endian form is the little-endian one backwards |
| Persistence.Encoder.PutBytes | include/artifact_fabric/persistence.hpp:37-41 | throws exactly beyond the limit, otherwise appends length and bytes |
| Persistence.Encoder.Finalize | include/artifact_fabric/persistence.hpp:59-64 | the buffer followed by its CRC |
| Persistence.Decoder.LittleEndian | include/artifact_fabric/persistence.hpp:89-103 | the byte loops read the little-endian value and advance, or throw when truncated |
| Persistence.Decoder.Str | include/artifact_fabric/persistence.hpp:106-123 | length, bound, then the bytes |
| Persistence.Decoder.Take | include/artifact_fabric/persistence.hpp:127-142 | advances past exactly the bytes asked for, or throws and stays |
| Persistence.Decoder.RequireEnd | include/artifact_fabric/persistence.hpp:149-151 | throws exactly when bytes remain |
| Persistence.WriteDescriptor | src/persistence.cpp:75-125 | throws on exactly the descriptors beyond a limit, otherwise appends the descriptor format |
| Persistence.ReadDescriptor | src/persistence.cpp:130-185 | reads exactly the descriptor format, or throws |
| Persistence.WriteDependency | src/persistence.cpp:21-28 | appends the dependency format |
| Persistence.ReadDependency | src/persistence.cpp:29-39 | reads the dependency format |
| Persistence.WritePlacement | src/persistence.cpp:41-54 | appends the placement format, or throws on a long locator |
| Persistence.ReadPlacement | src/persistence.cpp:55-73 | reads the placement format; non-finite numbers are rejected |
| Persistence.EncodeDescriptor | src/persistence.cpp:187-191 | the framed encoding, or the exception |
| Persistence.DecodeDescriptor | src/persistence.cpp:193-199 | the framed decoding: CRC, descriptor, end of input |
| Derivation.WriteCompatFields | src/descriptor.cpp:12-42 | appends the compatibility fields, or throws on a long string |
| Derivation.ComputeId | src/descriptor.cpp:63-70 | the identifier derived from the compatibility fields, generation and producer, or the exception on a long string; what it distinguishes is `SameIdIff` |
| Derivation.CompatBytesDistinguish | src/descriptor.cpp:12-42 | with text within bounds, the compatibility fields are hashed as the same bytes exactly when all of them agree, field by field: kind, the eight optional targets, toolchain generation, the seven texts, policy generation, generation and dependency digest |
| Derivation.DerivationBytesDistinguish | src/descriptor.cpp:63-67 | and identifiers are derived from the same bytes exactly when, besides, the producer is the same |
| Derivation.IdIsLeadingBytes | src/descriptor.cpp:68-69 | the identifier is the first sixteen bytes of the digest |
| Derivation.SameIdIff | src/descriptor.cpp:63-70 | two descriptors are given the same identifier exactly when all those fields and the producer agree, unless the first halves of the digests collide |
| Derivation.RefreshDigests | src/descriptor.cpp:72-75 | both digests, or the exception that leaves the descriptor alone |
| Derivation.DigestsDistinguish | src/descriptor.cpp:51-75 | without collisions, the compatibility digests of two storable descriptors agree exactly when those fields do, and the metadata digests exactly when the descriptors were the same |
| Protocol.FrameRoundTrip | src/protocol.cpp:7-38 | every frame within the payload bound is decoded to the same type and payload |
| Protocol.FramesRigid | src/protocol.cpp:19-38 | no accepted frame can be cut short or lengthened into another accepted frame |
| Protocol.ReadFrame | src/protocol.cpp:19-38 | the checks in the order of the source, each with its exception |
| Protocol.WriteFrame | src/protocol.cpp:7-17 | header, payload and CRC, or the exception |
| Protocol.RequestRoundTrip | src/protocol.cpp:40-95 | of the requests that can be encoded, exactly those with finite placement numbers come back, unchanged but for the boot identifier, which is not sent |
| Protocol.RequestsRigid | src/protocol.cpp:66-95 | truncations and extensions of an accepted request body are rejected |
| Protocol.ResponseRoundTrip | src/protocol.cpp:97-126 | of the responses that can be encoded, exactly those with finite placement numbers come back, unchanged; the others are rejected |
| Protocol.ResponsesRigid | src/protocol.cpp:111-126 | truncations and extensions of an accepted response body are rejected |
| Protocol.SendRequest | src/protocol.cpp:40-64 | encodes the request field by field, or throws |
| Protocol.ReceiveRequest | src/protocol.cpp:66-95 | decodes the request field by field, or throws |
| Protocol.SendResponse | src/protocol.cpp:97-109 | encodes the response field by field, or throws |
| Protocol.ReceiveResponse | src/protocol.cpp:111-126 | decodes the response field by field, or throws |
| Lifecycle.RetirableUnlessFailed | include/artifact_fabric/lifecycle.hpp:50-83 | RETIRED and FAILED are the only dead ends, and RETIRED can be reached from every state but FAILED |
| Lifecycle.ActiveAgain | include/artifact_fabric/lifecycle.hpp:50-83 | by the table alone ACTIVE can be reached from every state except RETIRED, FAILED and EVICTED, in particular from INVALIDATED |
| Lifecycle.EnteredFrom | include/artifact_fabric/lifecycle.hpp:50-83 | for each state, the set of states it can be entered from |
| Accounting.Accountant.AddLogicalBytes | include/artifact_fabric/accounting.hpp:46-49 | throws exactly when the counter would become negative, and then changes nothing; otherwise changes that counter alone |
| Accounting.Accountant.AddPhysicalBytes | include/artifact_fabric/accounting.hpp:50-53 | throws exactly when the counter would become negative, and then changes nothing; otherwise changes that counter alone |
| Accounting.Accountant.AddDedupBytes | include/artifact_fabric/accounting.hpp:54-57 | throws exactly when the counter would become negative, and then changes nothing; otherwise changes that counter alone |
| Accounting.Accountant.AddActiveReference | include/artifact_fabric/accounting.hpp:58-61 | throws exactly when the counter would become negative, and then changes nothing; otherwise changes that counter alone |
| Accounting.Accountant.ReleaseBuild | include/artifact_fabric/accounting.hpp:63-66 | throws exactly when the counter would become negative, and then changes nothing; otherwise changes that counter alone |
| Accounting.Accountant.AddTemporaryBytes | include/artifact_fabric/accounting.hpp:67-70 | throws exactly when the counter would become negative, and then changes nothing; otherwise changes that counter alone |
| Accounting.Accountant.RecordInvalidation | include/artifact_fabric/accounting.hpp:72 | counts one invalidation and changes nothing else |
| Catalogs.Catalog.SetAuthority | src/catalog.cpp:50-54 | sets epoch and boot and nothing else |
| Catalogs.Catalog.RollEpoch | src/catalog.cpp:57-61 | the epoch goes up by one (wrapping) and the boot identifier is replaced |
| Catalogs.Catalog.Find | src/catalog.cpp:142-184 | a lookup in any of the twelve indexes, after any calls, also throwing ones: exactly what is listed, ascending, and all of it catalogued and with that attribute now; nothing that has it is missing while everything is indexed |
| Catalogs.Catalog.Rebuild | src/catalog.cpp:116-126 | after a rebuild every artifact is indexed under its current attributes |
| Catalogs.Catalog.Register | src/catalog.cpp:205-217 | the new state, or the exception and the state it leaves |
| Catalogs.Catalog.Publish | src/catalog.cpp:222-275 | the new state and receipt, or the exception and the partly changed state it leaves |
| Catalogs.Catalog.KeepContent | src/catalog.cpp:239-248 | new content is stored and charged, known content gains a reference |
| Catalogs.Catalog.LinkEdges | src/catalog.cpp:252-255 | dependencies become nodes and edges one by one, up to the first rejection |
| Catalogs.Catalog.SignArtifact | src/catalog.cpp:257-262 | the digests and the states on the way, also when the encoder throws |
| Catalogs.Catalog.ChargeFor | src/catalog.cpp:264-267 | the counters and the next generation, in order, up to the first exception |
| Catalogs.Catalog.Promote | src/catalog.cpp:380-390 | the new state, or the exception with the artifact out of the indexes |
| Catalogs.Catalog.Validate | src/catalog.cpp:368-379 | the same for a validation report |
| Catalogs.Catalog.Supersede | src/catalog.cpp:391-409 | the same for a supersession; both relations and the counter are updated |
| Catalogs.Catalog.SetAside | src/catalog.cpp:437-447 | the same for a quarantine; the record is kept |
| Catalogs.Catalog.Retire | src/catalog.cpp:448-469 | the same for a retirement; the last reference removes the content |
| Catalogs.Catalog.DropContent | src/catalog.cpp:455-463 | one reference less, the content removed with the last one |
| Catalogs.Catalog.InvalidateDependents | src/catalog.cpp:419-436 | the recursion terminates and is the recursion of the value model |
| Catalogs.Catalog.Invalidate | src/catalog.cpp:410-418 | fence, generation check, then the recursion |
| Catalogs.Catalog.ContentFor | src/catalog.cpp:667-675 | the stored bytes of the artifact, if it and its content are known |
| Catalogs.Catalog.CurrentAccounting | src/catalog.cpp:692-697 | the counters with the deduplicated bytes recomputed |
| Catalogs.Catalog.CheckReusable | src/catalog.cpp:474-500 | the reuse answer for a catalogued artifact; an unknown one is not reusable |
| Catalogs.Catalog.Save | src/catalog.cpp:538-572 | the image of the whole catalog, or the exception of the encoder |
| Catalogs.Catalog.Load | src/catalog.cpp:574-648 | what any byte string does to any catalog: rejected untouched, left half restored, or replaced |
| CatalogIndex.Indexes.Add | src/catalog.cpp:83-96 | the identifier is listed under exactly the attributes of the descriptor in addition |
| CatalogIndex.Indexes.Remove | src/catalog.cpp:98-114 | the identifier is no longer listed under the attributes of the descriptor |
| CatalogIndex.EraseAll | src/catalog.cpp:99-101 | every occurrence goes, everything else stays |
| CatalogEffects.DoKeeps | src/catalog.cpp:205-469 | every call, returning or throwing, keeps the catalog well formed |
| CatalogEffects.Effects | src/catalog.cpp:222-469 | a call that returns relabels artifacts, publishes exactly one, or retires exactly one, with everything else as before |
| CatalogEffects.PublishEffect | src/catalog.cpp:222-275 | a publication that returns enters one new, encodable, published descriptor, links it, takes one reference and charges for it once |
| CatalogRuns.LookupsAreScans | src/catalog.cpp:116-184 | after calls that all returned, every lookup equals a sorted scan of the artifacts, and a rebuild changes nothing |
| CatalogRuns.FoundByAttribute | src/catalog.cpp:78-184 | after calls that all returned, each of the twelve lookups finds exactly the artifacts with the attribute it is named after |
| CatalogRuns.PromoteUnindexesIff | src/catalog.cpp:380-390 | after calls that all returned, promote drops the artifact from the indexes exactly when every check passed and the artifact is not PUBLISHED |
| IndexGaps.CallStrandsIff | src/catalog.cpp:205-469 | for every call: it leaves more artifacts out of the indexes exactly when it gets past its checks and then cannot finish, spelt out call by call with the lifecycle states it can start from |
| IndexGaps.FirstGapIff | src/catalog.cpp:78-126 | after calls that all returned nothing is left out, and the next call is the first to leave something out exactly in those cases |
| CatalogRuns.ValidateReturnsIff | src/catalog.cpp:368-379 | after calls that all returned, validate_artifact returns normally only for a failing report on an artifact that was registered and never published |
| FailingRuns.PromoteLosesEntry | src/catalog.cpp:380-390 | registering and promoting an artifact throws and drops it from the index of its kind |
| FailingRuns.ValidatingThrows | src/catalog.cpp:368-379 | reporting success on a published artifact throws; reporting failure on a registered one returns |
| Publications.PublishReturnsIff | src/catalog.cpp:222-275 | publish returns exactly when: fenced, within the encoder limits, identifier free, generation current, dependencies distinct, new and closing no cycle, room in the graph, no counter made negative, and a generation left |
| Publications.OrdinaryPublishReturnsIff | src/catalog.cpp:222-275 | after any calls, also throwing ones, no counter stands in the way of a publication that declares less than 2^63 bytes |
| Publications.LinkReturnsIff | src/catalog.cpp:251-255 | when the whole list of dependencies is taken into the graph |
| Publications.GenerationsGrow | src/catalog.cpp:205-275 | while every call returns, the next generation is above every generation set so far |
| CatalogRuns.LifecycleCallsReturnIff | src/catalog.cpp:380-447 | exactly when promote, supersede and quarantine return, and the one artifact each changes |
| CatalogRuns.RetireAcceptedIff | src/catalog.cpp:448-462 | after calls that all returned, retire gets past its transition exactly when the artifact is DECLARED, PUBLISHED, ACTIVE, INVALIDATED, SUPERSEDED or QUARANTINED, and it is then RETIRED whatever throws afterwards; otherwise no artifact changes |
| Requests.FencedOff | src/catalog.cpp:63-66 | every mutation under another epoch is refused as such, and under the same epoch for another boot; nothing changes |
| Requests.OtherCallsChange | src/catalog.cpp:50-126 | setting the authority, rolling the epoch and rebuilding the indexes change that alone |
| Requests.UnknownRefused | src/catalog.cpp:368-469 | a call that names an artifact the catalog does not have is refused, and nothing changes |
| Requests.OlderRefused | src/catalog.cpp:368-418 | so is one that carries an older generation than the artifact it concerns |
| Requests.PublishedAs | src/catalog.cpp:222-275 | a publication that returns enters exactly the descriptor that was asked for, under the identifier asked for or derived, with what the program fills in, and signed in the new graph |
| Requests.CallsChange | src/catalog.cpp:205-447 | the whole state that register, validate, promote, supersede and quarantine leave when they return |
| Requests.InvalidationLeaves | src/catalog.cpp:410-436 | the artifacts an invalidation leaves: INVALIDATED with its cause are exactly the live ones among its artifact and what depends on it |
| Requests.RetirementLeaves | src/catalog.cpp:448-469 | a retirement that returns makes its artifact RETIRED and changes no other |
| CatalogRuns.RunKeepsLinked | src/catalog.cpp:250-255 | after publications and lifecycle calls that returned, the graph is exactly the one the catalogued descriptors describe |
| CatalogRuns.LinkEffect | src/catalog.cpp:251-255 | linking a new artifact gives it its dependencies in order and leaves all other edges alone |
| References.RefcountsConserved | src/catalog.cpp:239-248 | each reference count is the number of non-retired artifacts with that digest, and a content is stored exactly while that number is positive |
| References.ContentPreserved | src/catalog.cpp:667-675 | as long as an artifact is not retired, content_of returns the bytes it was published with |
| References.ReturnKeepsCounted | src/catalog.cpp:448-469 | every returning publication or lifecycle call keeps the reference counts exact |
| Ledger.CountersAreDefinitions | src/catalog.cpp:692-698 | every counter equals its definition, and the reported deduplicated bytes are exactly what sharing saves |
| Ledger.RetiredIsZeroIff | include/artifact_fabric/accounting.hpp:24-28 | once everything is retired, the accounts are zero exactly when no invalidation or supersession was counted |
| Ledger.RetiringAllIsZero | include/artifact_fabric/accounting.hpp:24-28 | a run without invalidations and supersessions that retires everything ends with is_zero |
| Ledger.RetireReturnsIff | src/catalog.cpp:448-469 | in such runs no counter guard ever stops a retirement: it returns exactly when the artifact is DECLARED, PUBLISHED, ACTIVE, INVALIDATED, SUPERSEDED or QUARANTINED |
| CounterGuards.GuardedNeverNegative | include/artifact_fabric/accounting.hpp:39-77 | whatever is called and whatever throws, no guarded counter is ever negative |
| CounterGuards.NegativeIff | include/artifact_fabric/accounting.hpp:39-77 | the one call, and exactly the states, in which the count of artifacts or of contents becomes negative |
| CounterGuards.ReturningRunsNeverNegative | include/artifact_fabric/accounting.hpp:39-77 | while every call returns, register_artifact included, artifacts are counted like active references and backing like stored contents, so neither is negative |
| FailingRuns.NegativeArtifacts | src/catalog.cpp:463-466 | retiring an artifact that was only registered leaves the count of artifacts at -1 |
| FailingRuns.NegativeBacking | src/catalog.cpp:455-463 | two retirements of contents that were charged too little leave the count of contents negative |
| Ledger.AgreesAfterPublish | src/catalog.cpp:239-266 | one publication keeps logical, physical and shared bytes in balance |
| Ledger.AgreesAfterRetire | src/catalog.cpp:455-466 | one retirement keeps them in balance |
| Invalidation.InvalidationIsExact | src/catalog.cpp:410-436 | invalidate returns exactly when every catalogued artifact in the closure is in one of the seven states; it then moves exactly the live ones, counts each once and leaves everything else alone |
| Invalidation.FromIsFlat | src/catalog.cpp:419-436 | the recursion from a live artifact is one flat pass over it and its dependents |
| Invalidation.EachIsFlat | src/catalog.cpp:429-435 | the loop over a closed list of dependents is one flat pass over the live ones |
| Invalidation.InvalidateOnlyStates | src/catalog.cpp:419-436 | also when it throws half-way, an invalidation changes nothing but lifecycle states, indexes, causes and its own counter |
| Safety.InvalidatedStaysUnusable | src/catalog.cpp:410-436 | after invalidate(e), neither e nor anything that depends on it is ever reported reusable again, as long as no publication names any of it |
| Safety.PublishKeepsPoisonIff | src/catalog.cpp:250-255 | after a publication, an invalidated artifact and everything that depends on it is still dead exactly when the publication names none of them |
| Safety.StaysPoisonedIff | src/catalog.cpp:410-436 | over any returning run: it all stays dead from the invalidation on exactly when no later publication names any of it |
| Safety.CarefulIsUntainted | src/catalog.cpp:492-499 | publications that name only dependencies that are catalogued and not INVALIDATED, RETIRED, EVICTED or QUARANTINED name nothing invalidated, however far away |
| Reusability.NeverReusableIff | src/catalog.cpp:410-500 | over any returning run: neither e nor anything that depends on it is ever reported reusable after invalidate(e), under any requirement, exactly when every later publication and registration is harmless |
| Reusability.PublishUnreusableIff | src/catalog.cpp:222-275 | one publication: exactly when it makes something reusable that is e or depends on e |
| Reusability.PoisonedUnreusableIff | src/catalog.cpp:222-275 | when everything concerned is dead, only the publication itself counts and the artifacts that named it in advance; for an identifier new to the graph, only the publication |
| Reusability.EverReusableIff | src/reuse.cpp:5-43 | reusable under some requirement exactly when in a usable state, validated, with provenance, placed, and with fresh direct dependencies; the states and conditions are written out |
| Safety.InvalidatePoisons | src/catalog.cpp:419-436 | when invalidate returns, the whole closure is in a state no call leads out of |
| CatalogImage.ImageLaw | src/catalog.cpp:538-607 | the image format is self-delimiting and reads back what it wrote |
| Recovery.RecoveryIsExact | src/catalog.cpp:538-648 | the image of a catalog built by returning calls, within the limits, always saves; loading it returns exactly when the signed sizes do not add up to less than zero, and then restores everything the image holds, every lookup and the inverse relation, and saves to the same image |
| Recovery.DamagedImageIgnored | src/catalog.cpp:574-607 | a saved image cut short, lengthened, or changed within four bytes or in its checksum is refused by every catalog and changes nothing there |
| Recovery.OrdinarySizesLoad | src/catalog.cpp:635-641 | in particular it loads when every declared size is below 2^63 |
| FailingRuns.ReturningRunNotLoaded | src/catalog.cpp:635-641 | five returning calls after which the catalog is saved and the image does not load, into any catalog |
| Recovery.CountersRecomputed | src/catalog.cpp:635-647 | physical counters and active references always come back, the logical ones exactly when nothing is retired |
| Recovery.RestoreAll | src/catalog.cpp:617-628 | restoring the descriptors in order of identifier never meets a rejected node or edge |
| Recovery.PredecessorsInvert | src/catalog.cpp:631-632 | the rebuilt predecessor lists are the inverse of the successor lists, multiplicities included |
| Recovery.RunKeepsInverse | src/catalog.cpp:405-406 | over any returning run the two supersession relations are inverse to each other |
| ImageFiles.WriteImage | src/catalog.cpp:538-572 | writes the image section by section, or throws |
| ImageFiles.ReadImage | src/catalog.cpp:576-607 | reads the image section by section, or throws |
| Compatibility.OutcomeIsWorst | src/compat.cpp:34-105 | COMPATIBLE exactly when no dimension fails; otherwise the outcome of a failing dimension, and none is more severe |
| Compatibility.WorstOfIs | src/compat.cpp:25-32 | of several failing dimensions of the greatest severity, the first decides |
| Compatibility.MoreRequiredMoreFailed | src/compat.cpp:34-105 | a stronger requirement only adds failed dimensions (the old list is a subsequence) and never lowers the severity |
| Compatibility.EvaluateCompatibility | src/compat.cpp:34-105 | the checks as they run give exactly that outcome and that list |
| Compatibility.GreatestGeneration | src/compat.cpp:87-88 | the loop finds the maximum dependency generation, zero when there are none |
| Compatibility.CompatResult.Fail | src/compat.cpp:29-32 | the dimension is appended and the outcome raised when more severe |
| Dimensions.OwnRequirementMetIff | src/compat.cpp:34-105 | an artifact is compatible with the requirement read off itself, every field and every minimum its own, exactly when it is validated, in a usable state and has fresh direct dependencies |
| Dimensions.StateReported | src/compat.cpp:39-53 | each thing that can be wrong with the artifact itself is reported as that one dimension, with its outcome |
| Dimensions.AnotherIdentity | src/compat.cpp:56-59 | asking for another kind, model, adapter or runtime gives exactly that failed dimension, INCOMPATIBLE |
| Dimensions.AnotherTool | src/compat.cpp:60-62 | the same for backend and compiler, and TOOLCHAIN_MISMATCH for the toolchain |
| Dimensions.AnotherMachine | src/compat.cpp:64-67 | the same for architecture and compute capability (ARCH_MISMATCH) and the ABI (ABI_MISMATCH) |
| Dimensions.AnotherForm | src/compat.cpp:68-71 | the same for dtype, layout, shape and specialisation, each compared with its own field, the specialisation with the shape |
| Dimensions.AnotherLaunch | src/compat.cpp:72-75 | the same for the launch geometry and for a vocabulary that is nowhere in the reuse metadata |
| Dimensions.AnyVocabularyThere | src/compat.cpp:74-75 | any piece of the reuse metadata will do as the vocabulary |
| Dimensions.HigherSourceGeneration | src/compat.cpp:78-83 | a higher minimum for model, adapter or toolchain gives exactly that failed dimension with its outcome, also when the artifact has no such generation |
| Dimensions.HigherDependencyGeneration | src/compat.cpp:84-90 | so does a minimum above the greatest dependency generation |
| Dimensions.HigherOwnGeneration | src/compat.cpp:91-96 | and one above the policy or artifact generation, or another protocol version |
| Dimensions.OtherFieldsDoNotMatter | src/compat.cpp:34-105 | a dimension fails as before whatever else changes in the descriptor, as long as its own field is the same |
| Dimensions.OtherDemandsDoNotMatter | src/compat.cpp:34-105 | and whatever else changes in the requirement |
| Dimensions.OutcomeNotBetter | src/compat.cpp:6-32 | the outcome is no better than that of any failed dimension, in the order of the ten outcomes from worst to best |
| Dimensions.FailedInOrder | src/compat.cpp:39-103 | failed dimensions are listed in the order of the checks |
| Reuse.ReusableIff | src/reuse.cpp:5-43 | reusable exactly when intact, with provenance, under current authority, in no unusable state, validated, placed, and compatible in every dimension |
| Reuse.ReasonsReported | src/reuse.cpp:5-43 | each reason is reported exactly when its own gate fails, each dimension exactly when it failed |
| Reuse.MoreRequiredLessReusable | src/reuse.cpp:5-43 | asking for more never makes an artifact reusable |
| Reuse.CheckReuse | src/reuse.cpp:5-43 | the gates as they run report exactly these failures, in order |
| Reuse.NotReusable | src/catalog.cpp:474-500 | an artifact in an unusable state or with a stale direct dependency is never reported reusable |
| FailingRuns.ReusableOnInvalidated | src/catalog.cpp:492-499 | a run of four returning calls after which an artifact is reported reusable although it depends, at one remove, on an invalidated one |
| WaitingRun.WaitingBecomesReusable | src/catalog.cpp:492-499 | a run of four returning calls in which a publication that is not reusable itself makes an older artifact reusable that thereby depends on an invalidated one |
| SingleFlight.SingleFlightSafe | src/catalog.cpp:505-533 | at any moment of any interleaving: one producer at work per key, one success per key ever, every caller that returned got that identifier, and whoever waits has a flight that is done or has a live owner |
| SingleFlight.NoDeadlock | src/catalog.cpp:22-27 | as long as someone has not returned, someone can take a step |
| SingleFlight.RunsEnd | src/catalog.cpp:505-533 | every step uses up some of a finite amount of work, so without new callers every run ends |
| SingleFlight.NextKeeps | src/catalog.cpp:505-533 | each atomic step keeps the invariant behind `SingleFlightSafe`; that a failed build makes way is `Retries` |
| Retries.TableIsExact | src/catalog.cpp:505-529 | at any moment of any interleaving a flight is in the table exactly while it is undecided, once it has succeeded, or when it has failed and its owner is still about to erase it; entries lead to the newest flight of their key |
| Retries.FailedMakesWay | src/catalog.cpp:524-529 | once the owner of a failed flight has gone on, no entry ever leads to that flight again, and every caller of the key who looks is given a newer one, unclaimed if the key has no entry |
| Retries.OwnProducerRunsIff | src/catalog.cpp:505-529 | a caller who is about to look can still come to run its own producer exactly as long as no production of its key has succeeded |
| Retries.CallersGetTheirFlight | src/catalog.cpp:512-532 | every caller that returned failed exactly when its flight carries an error, and otherwise was given an identifier that a producer of its key ended with |
| SingleFlight.EmptyMessageIsSuccess | src/catalog.cpp:25-26 | a failure is reported as one exactly when its message is not empty; otherwise the zero identifier is handed out |
| SingleFlight.EmptyMessageBreaksAgreement | src/catalog.cpp:519-529 | a run in which, after one empty message, two callers of the same key are given different identifiers |
| SingleFlight.BuildSubscribe.ClaimOwner | src/catalog.cpp:16-21 | the first caller claims the flight, the others do not |
| SingleFlight.BuildSubscribe.SetResult | src/catalog.cpp:28-36 | a result is taken once |
| SingleFlight.BuildSubscribe.SetError | src/catalog.cpp:37-45 | an error is taken once |
| SingleFlight.BuildSubscribe.Rendezvous | src/catalog.cpp:22-27 | throws exactly when the error is not empty, and otherwise returns the result |
| SingleFlight.FlightTable.FindOrMake | src/catalog.cpp:508-511 | the flight of the key, made when there is none |
| SingleFlight.FlightTable.EraseIfSame | src/catalog.cpp:526-528 | the flight leaves the table only if it is still the one there |
| Transactions.PublishTransaction.Reserve | src/catalog.cpp:285-300 | the reservation, or the exception and the state it leaves |
| Transactions.PublishTransaction.Produce | src/catalog.cpp:301-313 | the content is referenced and the artifact takes its digest; the indexes stay exact unless the artifact was indexed before |
| Transactions.PublishTransaction.ValidatePublish | src/catalog.cpp:314-321 | any report is taken, whatever the state; the indexes stay exact unless the artifact was indexed before |
| Transactions.PublishTransaction.VerifyDependencies | src/catalog.cpp:322-335 | the edges are added and the dependency digest taken, or the graph is left part of the way; the indexes stay exact unless the artifact was indexed before |
| Transactions.PublishTransaction.Commit | src/catalog.cpp:336-351 | the reservation is given back, the artifact charged and indexed, up to the first exception; the indexes stay exact unless the artifact was indexed before; what commits add up to is `Commits` |
| Transactions.PublishTransaction.Abort | src/catalog.cpp:352-363 | a reference to the digest of that moment is given up, the artifact forgotten and the reservation given back; the indexes stay exact unless the artifact was indexed before |
| TransactionRuns.ReservationsConserved | src/catalog.cpp:294-298 | for any number of interleaved transactions: build_reservations grows by the number open, temporary bytes by what they reserved |
| Commits.CommitsCharged | src/catalog.cpp:336-349 | for any number of interleaved transactions: artifacts, active references and backing contents each grow by the number of commits, logical and physical bytes by the sum of the committed sizes, and no other counter moves but those of the reservations |
| Commits.CommittedAreFound | src/catalog.cpp:285-351 | every committed artifact is catalogued as its steps describe it (request, produced content, reported state), PUBLISHED and found under each of its attributes; that of an open transaction is as far as its last step took it; the indexes gain the committed artifacts alone, and earlier artifacts stay as they were |
| Commits.VerifiedEdgesStay | src/catalog.cpp:322-335 | every node keeps its edges and gains, in order, those that were verified for it |
| Commits.VerifyingSigns | src/catalog.cpp:333-334 | verifying gives the artifact the digest of its dependencies in the graph as it then is, and changes no other artifact |
| TransactionRemoval.AbortLeavesNoTrace | src/catalog.cpp:285-363 | removing every step of an aborted transaction from any interleaving leaves a run that still returns throughout and ends with the same artifacts, contents, reference counts and counters |
| TransactionRemoval.CancelConservesIff | src/catalog.cpp:355-358 | an abort gives back exactly the reference its own transaction took, exactly when the transaction produced or nothing is stored under the digest it claims |
| TransactionRemoval.ConservedIffClean | src/catalog.cpp:301-358 | over any disciplined interleaving, every reference count stays what was produced and not given back exactly when no abort is of the other kind |
| LostReference.PublishedWithoutContent | src/catalog.cpp:352-358 | a disciplined interleaving in which one abort takes the content of another transaction, which then commits an artifact without content |
| TransactionRemoval.SideBySide | src/catalog.cpp:285-363 | the run with and the run without one transaction go side by side, step by step |
| Coordination.Coordinator.Process | src/distributed.cpp:42-110 | each request does to the catalog what its call does; the reply is given in full for every request |
| Coordination.Coordinator.Mutate | src/distributed.cpp:53-87 | a mutation is answered with ok exactly when the call returned, with its exception otherwise, and a publication with its identifier, digest, epoch and boot identifier |
| Requests.RequestsAre | src/distributed.cpp:42-88 | which message types mutate, which call each stands for, on which artifact, and under whose authority |
| Requests.RepliesTell | src/distributed.cpp:45-109 | what the requests that change nothing are told: authority, a fresh identifier, the artifact asked for, or a refusal |
| Requests.PublishConcerns | src/distributed.cpp:53-65 | a successful request to publish enters one artifact, with its content and dependencies, under the identifier the reply gives |
| Requests.RequestConcerns | src/distributed.cpp:71-82 | a successful request to validate or supersede concerns its first artifact, and in the relations its second |
| Requests.RequestEnds | src/distributed.cpp:66-87 | a successful request to invalidate changes only its artifact and what depends on it, one to retire only its artifact |
| Coordination.EffectNeedsEarlyFence | src/catalog.cpp:63-66 | a mutation runs only after passing its fence under exactly the epoch it carries, so before any roll beyond that epoch |
| Coordination.LateFenceFails | src/catalog.cpp:63-66 | a mutation fenced after the epoch was rolled beyond its own is answered with ok = false, changes nothing and never runs |
| Coordination.EpochCountsRolls | src/catalog.cpp:57-61 | only rolls move the epoch, by one each |
| OverlappingPublications.SameGenerationIff | src/catalog.cpp:222-273 | two publications with open generations that both succeed, in any interleaving with anything else, enter two artifacts, and these have the same generation exactly when both read the same next generation |
| OverlappingPublications.EnteredAsRead | src/catalog.cpp:222-273 | whatever runs in between and afterwards, a publication with an open generation ends with the one it read before it took the lock |
| FailingRuns.OverlapSharesGeneration | src/catalog.cpp:222-238 | an interleaving in which two publications read the same next generation and both succeed |

## Left out

- Sockets, file streams, processes and the worker client: I/O plumbing. Of the coordinator only
  `process` is modelled; the "save:" action stops short of writing the file.
- Explanations, texts of exceptions and messages, compatibility messages: presentation. An
  exception is a value naming its kind; where several reasons to reject a placement apply at
  once, the model may name truncation where the program names the non-finite number.
- Locks and condition variables: critical sections are atomic steps, and a wait is a step that
  is possible once the flight is done.
- `Id::random`: a parameter.
- `placement_score` and every other computation on doubles.
- CUDA, benchmarks, command line tools, examples.
- Overflow of the signed 64-bit counters, which is undefined in the program: they are unbounded.
- `edge_count`, `node_count`, `artifact_count` and similar one-line queries.
- Catalogs.Catalog.Load: hash maps are traversed in ascending order of their keys; only an
  exception in the middle of recounting could tell the difference.
- TransactionRemoval.AbortLeavesNoTrace: no direct calls in between, contents without collisions,
  and room in the 64-bit reference counts; the edges an aborted transaction verified stay in the
  graph, so closure digests of other artifacts may differ then.
- References.RefcountsConserved: without `register_artifact`, which takes an arbitrary digest
  without touching the content store, and without transactions.
- Ledger.CountersAreDefinitions: the same restriction, with declared sizes equal to content sizes.
- Commits.CommittedAreFound: the digest of the dependency closure is left open; `VerifyingSigns`
  says what it is when it is taken, and edges verified later do not change it.
- Recovery.RecoveryIsExact: the same restriction, with finite placement numbers, successor lists
  within 32-bit counts and fewer nodes than the limit of the graph.
- Safety.InvalidatedStaysUnusable: no `load` and no transactions in the run.
- Reusability.NeverReusableIff: the same restriction.
- IndexGaps.CallStrandsIff: of an invalidation it is said when the artifact and everything that
  depends on it is indexed, as it is after calls that all returned; otherwise the invalidation
  may stop at an artifact that was left out before.
- Catalogs.Catalog.Find: the twelve index maps are one map over tagged keys, with the same
  entries; the order inside an entry is never observable. That the lists are exact in every
  reachable state is the invariant of the class, which every method keeps,
  `Catalogs.Catalog.Load` included; there is no separate theorem about index lists over runs of
  the value model.
- FailingRuns.ReturningRunNotLoaded: for a hash that keeps the four contents of the run apart.
