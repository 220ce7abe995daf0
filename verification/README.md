# RootPermit: models and proofs

This project models the parts of RootPermit whose correctness everything else leans on, and proves properties of the
models with Dafny. `dafny verify dfyconfig.toml` checks all of it.

| part | modules |
|---|---|
| Deterministic CBOR | `Cbor` (grammar, parser function), `CborEncoding` (encoder function, normal form), `KeyOrders` (the two key orders of RFC 8949), `CborMachine` (the parser and encoder as they run), `CborFaults` and `EncodeFaults` (why messages and values are refused) |
| Messages on top of it | `Fields`, `FieldReader`, `Messages`, `Events`, `Requests`, `FlatMessages`, `Digests`, `Cose`, `Rpc`, `Acceptance` (which messages can be sent) |
| The C++ helper | `Utf8`, `HelperCbor`, `ActionGraph`, `PlanManifest`, `ManifestForm` (the one way to write a manifest), `ManifestFaults` (why one is refused), `Sha256` |
| Request lifecycle | `EventChain` (hash-chained log, receipts), `Lifecycle` (the record), `LifecycleOutcomes` (which call leads where), `BrokerStore` (transactions and the store object), `BrokerRuns` (whole runs), `BrokerGuards` (when transactions succeed), `BrokerOutcomes` (what each transaction writes and answers), `Identifiers`, `BrokerDecisions` (who approves and denies) |
| Delivery | `SpoolCodec`, `SpoolReader`, `RelaySpool` (crashes), `RelayOutcomes` (what each request does), `Projection`, `ServiceProjection`, `Outbox` (leases), `OutboxRows` (what becomes of each row) |
| Shared | `ByteStrings`, `Results`, `Sequences`, `Sorting`, `Vocabulary` |

How things are modelled:

- Code that updates state in place is a class or a loop, proved equal to a function of the old state; the theorems are
  about those functions, over all inputs and all runs.
- Hashes, signatures and the SHA-256 compression function are arbitrary functions. Theorems about commitments say
  that two inputs are equal or point at the two hash inputs that collide.
- A database transaction is one atomic step that commits its whole database or nothing. The request table is a
  sequence in insertion order, each request with its events and receipt. Read phases are separate from the write
  transaction that follows them, and other transactions may run in between.
- A save of the spool is five file-system steps. A power loss keeps the last synced directory or any later version of
  it, and arbitrary bytes in files that were not synced.
- Clocks, random identifiers, delivery outcomes and what the reviewed WebAuthn verifier says are parameters.

What the code does, where a reader might expect something else:

- Map keys are ordered length-first, as in section 4.2.3 of RFC 8949, not bytewise as in section 4.2.1,
  which is the core profile that the encoder names (crates/rp-protocol/src/cbor.rs:113, 153). An encoded value
  meets that profile exactly when, in every map, a key that goes first bytewise is no longer than those after it. This
  is proved in `KeyOrders`, for scalar keys as a comparison of major types and lengths, with an encodable map that fails.
- The store permits planning to expired at a new boot, which the lifecycle's own edges do not
  (crates/rp-broker-core/src/lib.rs:687).
- The store lets callers move a request from planning to pending and on to approved without a decision
  (crates/rp-broker-core/src/lib.rs:780), and the events it writes are those of a decision. So "approved means decided"
  holds of the record, and of the store exactly for requests that no caller moved that way; both halves, the three-call
  witness and the indistinguishable events are proved in `BrokerDecisions`.
- `boot_epoch` is never written after its default of zero, so epoch zero expires nothing.
- Intake accepts identifiers that do not decode and package names that begin with a digit. With all other guards met,
  closing a request and starting a boot succeed exactly when the identifiers decode, and preparing exactly when the name
  begins with a letter; such identifiers and names do enter, and a request that cannot be closed blocks its device for
  good. A request that cannot be prepared can still be moved out of planning by a caller, or closed.
- The documentation of RPC bodies says they are integer-keyed (crates/rp-broker-api/src/lib.rs:323, 328); the
  code accepts any map that is canonical and fits, and no other value, which `Rpc.BodyAcceptedExactly` proves.
- The helper casts an unsigned creation time to a signed one. That is the only way two encodings of one manifest can
  differ, and a manifest with a wrapped time always has a second encoding.
- The relay's projection guard stays frozen until it is restored; the service's table resumes with the next event.

## Main results

Everything else in the table supports these, or states a smaller fact; the smallest facts stand at its end.

- One encoding per value: `Cbor.DecodeExactly`, `CborEncoding.EncodeExactly`, and the running parser and encoder
  (`CborMachine.RunDecode`, `CborMachine.RunEncode`) equal to them. When the wire meets the core profile of RFC
  8949: `KeyOrders.CoreProfileExactly`. Which error a refused message gets: `CborFaults.RefusedExactly`. The helper's own parser agrees with the broker's on all they share:
  `HelperCbor.ParsersAgree`.
- Messages, envelopes and frames decode and encode to each other in both directions: `Messages`, `Events`, `Requests`,
  `FlatMessages`, `Cose`, `Rpc`; which messages, envelopes and bodies travel at all: `Acceptance`,
  `Rpc.DecodesExactly`, `Rpc.BodyAcceptedExactly`. What is signed under one purpose is never what is signed under another:
  `Digests.PreimagesSeparate`.
- Normalising an action graph: `ActionGraph.NormalizedExactly`, `ActionGraph.ActionList.Normalize`. Which bytes
  are a manifest: `ManifestForm.ParsesExactly`; they are determined by what it says, with the exact exception:
  `PlanManifest.ManifestDeterminesBytes`, `PlanManifest.SecondEncodingExactly`.
- Hash chains commit to whole histories: `EventChain.HistoryCommitment`, `EventChain.ReceiptCommitment`,
  `Sha256.DigestCollision`; chunked hashing is one-shot hashing: `Sha256.HashChunks`.
- The lifecycle record over any calls: `Lifecycle.RunWellFormed`, `Lifecycle.ExecutionAuthorised`,
  `Lifecycle.StartsAtMostOnce`; how it ended is what the call that ended it reported:
  `LifecycleOutcomes.OutcomeExactly`.
- The broker's database over any run: `BrokerRuns.RunKeeps`, `BrokerRuns.DecisionStillBound`,
  `BrokerRuns.OperationNamesOneRequest`; what each transaction writes, signs and answers:
  `BrokerOutcomes.TerminalExactly`, `BrokerOutcomes.CommitExactly`, `BrokerOutcomes.ReadPhaseExactly`,
  `BrokerOutcomes.BootExactly`, `BrokerOutcomes.SubmitNew`; who approves: `BrokerDecisions.VerdictsOfRun`,
  `BrokerDecisions.ExecutedMeansApproved`; when it gets stuck: `BrokerGuards.ClosesExactlyWhenIdDecodes`,
  `BrokerGuards.BootsExactlyWhenIdsDecode`, `BrokerGuards.PreparesExactlyWhenNameFreezes`.
- The relay's spool under crashes: `RelaySpool.NothingPromisedIsLost`, `RelaySpool.ReopensExactly`,
  `RelayOutcomes.AcknowledgedIsGone`; its format: `SpoolCodec.DecodeListExactly`.
- Projections under hostile delivery: `Projection.AnyScriptLeavesPrefix`, `ServiceProjection.TableHoldsPrefix`,
  `ServiceProjection.ApplyExactly`; leases among workers: `Outbox.GenerationClaimedOnce`, `Outbox.EffectExactlyForNewest`,
  `Outbox.RemovedWasDelivered`; and nothing is lost: `OutboxRows.NoRowIsLost`.

## Model

| member | source | states |
|---|---|---|
| `Cbor.ItemExactly` | crates/rp-protocol/src/cbor.rs:218-294 | The parser accepts a prefix of the input as a value, leaving a given rest, if and only if the value is in normal form within the limits and the prefix is its one encoding; both directions, at every nesting depth |
| `Cbor.DecodeExactly` | crates/rp-protocol/src/cbor.rs:93-115 | A whole message decodes to a value if and only if the value is canonical within the limits, the bytes are its encoding and they fit the message limit |
| `Cbor.OneEncodingPerValue` | crates/rp-protocol/src/cbor.rs:93-115 | No two byte strings decode to the same value |
| `Cbor.AcceptedInputsArePrefixFree` | crates/rp-protocol/src/cbor.rs:97-115 | No accepted message is a proper prefix of another accepted one, even under different limits |
| `Cbor.CanonicalWidens` | crates/rp-protocol/src/cbor.rs:27-50 | What is canonical stays canonical when limits grow or nesting gets shallower |
| `Cbor.ArgumentIsHead` | crates/rp-protocol/src/cbor.rs:296-318 | An argument that parses is the shortest head for its number; longer forms are refused |
| `CborEncoding.DecodeThenEncode` | crates/rp-protocol/src/cbor.rs:117-124 | Strong canonicality: whatever decodes re-encodes to exactly the same bytes, and is already in normal form |
| `CborEncoding.EncodeExactly` | crates/rp-protocol/src/cbor.rs:117-184 | Encoding succeeds with given bytes if and only if the normal form (every map sorted by encoded key, at every depth) is within the profile, has those bytes and fits; the bytes decode to the normal form |
| `CborEncoding.EqualBytesIffSameNormalForm` | crates/rp-protocol/src/cbor.rs:117-184 | Two encodable values have equal bytes exactly when they have equal normal forms |
| `CborEncoding.RawIsInjective` | crates/rp-protocol/src/cbor.rs:126-205 | Canonical values with one encoding are one value, whatever limits each was checked under |
| `CborEncoding.NormalFixesCanonical` | crates/rp-protocol/src/cbor.rs:147-178 | A value that is already canonical is its own normal form |
| `CborEncoding.UnsignedKeyOrdersCoincide` | crates/rp-protocol/src/cbor.rs:153-158 | For unsigned keys the length-first order of section 4.2.3 of RFC 8949, the bytewise order of section 4.2.1 and numeric order are one order |
| `CborEncoding.KeyOrderIsTotal` | crates/rp-protocol/src/cbor.rs:153-158 | The key order is a strict total order, so sorting has one result |
| `KeyOrders.BytewiseOrder` | crates/rp-protocol/src/cbor.rs:126-205 | The bytewise order of section 4.2.1 of RFC 8949 on two canonical encodings, told from the values alone: by major type, argument and contents, at every depth |
| `KeyOrders.OrdersAgreeExactly` | crates/rp-protocol/src/cbor.rs:153-158 | For any two keys, the length-first and the bytewise order agree if and only if neither goes first bytewise with the longer encoding |
| `KeyOrders.ScalarOrdersAgreeExactly` | crates/rp-protocol/src/cbor.rs:153-158 | For keys that are numbers, strings, booleans or null: they agree if and only if neither has the lower major type and the longer encoding |
| `KeyOrders.CoreProfileExactly` | crates/rp-protocol/src/cbor.rs:110-178 | The core profile promised of the encoder: for every value that encodes, the emitted bytes are those of its normal form, and the keys of every map in it, at every depth, ascend bytewise if and only if no map in the value has two keys of which the one bytewise first is the longer |
| `KeyOrders.MapAscendsExactly` | crates/rp-protocol/src/cbor.rs:147-178 | The same for the keys of one encoded map, whatever kind its keys are |
| `KeyOrders.ScalarMapAscendsExactly` | crates/rp-protocol/src/cbor.rs:147-178 | For one map with scalar keys: if and only if no key has a lower major type and a longer encoding than another |
| `KeyOrders.MixedMapOutsideCore` | crates/rp-protocol/src/cbor.rs:110-158 | Witness: a map holding the empty text and 24 encodes, to six given bytes, with its keys not ascending bytewise |
| `CborMachine.Parser.ReadArgument` | crates/rp-protocol/src/cbor.rs:296-318 | The cursor reads what the grammar says of an argument, and moves past it |
| `CborMachine.Parser.ReadValue` | crates/rp-protocol/src/cbor.rs:218-294 | The recursive parser with its moving offset computes the grammar function on the input left, for every input and depth |
| `CborMachine.Parser.ReadItems` | crates/rp-protocol/src/cbor.rs:248-255 | The loop that fills an array |
| `CborMachine.Parser.ReadEntries` | crates/rp-protocol/src/cbor.rs:256-278 | The loop that fills a map and compares each key with the previous one |
| `CborMachine.RunDecode` | crates/rp-protocol/src/cbor.rs:97-115 | Decoding as it runs is the decoding function |
| `CborMachine.Output.WriteHead` | crates/rp-protocol/src/cbor.rs:186-205 | The head written byte by byte is the shortest head |
| `CborMachine.RunEncode` | crates/rp-protocol/src/cbor.rs:117-124 | Encoding as it runs, re-decoding its own output, is the encoding function |
| `CborMachine.RunEncodeInto` | crates/rp-protocol/src/cbor.rs:126-184 | Appending to the output buffer gives the encoding function of the value after what was there |
| `CborMachine.RunEncodeMap` | crates/rp-protocol/src/cbor.rs:147-178 | Encoding keys, sorting, refusing duplicates and joining, as loops |
| `CborFaults.FaultsExactly` | crates/rp-protocol/src/cbor.rs:218-318 | At every nesting depth, an item is refused with an error if and only if that is its first fault, where faults are told from the bytes and the grammar: a head no value has, a length over a limit, a string cut short, too few proper items or entries in front of a fault, a proper key out of order; both directions |
| `CborFaults.RefusedExactly` | crates/rp-protocol/src/cbor.rs:97-115 | A whole message is refused for its size first, then for its first fault, then for what stands after a proper value, and for nothing else |
| `CborFaults.ErrorsSettle` | crates/rp-protocol/src/cbor.rs:218-318 | An error other than running out of input does not depend on what follows |
| `CborFaults.TruncationIsEof` | crates/rp-protocol/src/cbor.rs:97-115 | An accepted message cut short anywhere is told to have ended too soon |
| `EncodeFaults.DuplicateKeysRefused` | crates/rp-protocol/src/cbor.rs:147-168 | A map in which two keys have one normal form is refused as having duplicate keys, whatever its values are |
| `EncodeFaults.ProfileRefused` | crates/rp-protocol/src/cbor.rs:117-124 | What can be written down is emitted if and only if it decodes, and else refused with the very error the decoder gives |
| `Utf8.WellFormedIffScalars` | helper/apt-helper/src/startup_contract.cpp:171-193 | The grammar of section 4 of RFC 3629 describes exactly the encodings of sequences of Unicode scalar values |
| `Utf8.NextChar` | helper/apt-helper/src/startup_contract.cpp:171-193 | One round of the validator accepts exactly one character of that grammar, overlong forms, surrogates and large code points refused |
| `Utf8.ValidUtf8` | helper/apt-helper/src/startup_contract.cpp:171-193 | The validator loop accepts exactly the well-formed byte strings |
| `HelperCbor.CborParser.ReadValue` | helper/apt-helper/src/startup_contract.cpp:204-262 | The helper's own parser with its moving offset computes its grammar function |
| `HelperCbor.CborParser.ReadEntries` | helper/apt-helper/src/startup_contract.cpp:243-254 | The loop over map entries, with the key order check on raw key bytes |
| `HelperCbor.CborParser.Parse` | helper/apt-helper/src/startup_contract.cpp:198-202 | A whole manifest is read and nothing may follow it |
| `HelperCbor.ItemsOfBothAgree` | helper/apt-helper/src/startup_contract.cpp:204-262 | At every depth the helper reads what the broker reads, and refuses only booleans and tags beside what the broker refuses |
| `HelperCbor.ParsersAgree` | helper/apt-helper/src/startup_contract.cpp:195-277 | The helper accepts bytes as a value with all texts within 16,384 bytes if and only if the broker decodes them as that value and it holds no boolean and no tag |
| `HelperCbor.HelperExactly` | helper/apt-helper/src/startup_contract.cpp:195-277 | The helper accepts bytes as a value if and only if the value is in normal form without booleans and tags, the bytes are its one encoding and they fit the manifest limit |
| `ActionGraph.NormalizesWhen` | helper/apt-helper/src/startup_contract.cpp:414-442 | Normalisation succeeds exactly on valid graphs with distinct keys and no parent listed twice |
| `ActionGraph.NormalizedIsNormalForm` | helper/apt-helper/src/startup_contract.cpp:421-441 | The result is the input renamed by the sorted ranks, with keys and parent lists strictly ascending |
| `ActionGraph.NormalFormIsUnique` | helper/apt-helper/src/startup_contract.cpp:414-442 | A graph has at most one normal form |
| `ActionGraph.NormalizedExactly` | helper/apt-helper/src/startup_contract.cpp:414-442 | A graph normalises to another if and only if that one is a renaming of it in strict order; the right side does not mention sorting |
| `ActionGraph.SameGraphSameNormalForm` | helper/apt-helper/src/startup_contract.cpp:414-442 | Canonical form: a graph and any permutation of it, with parents renamed and listed in any order, normalise to identical graphs or both fail |
| `ActionGraph.NormalizedTwice` | helper/apt-helper/src/startup_contract.cpp:414-442 | A second pass is the identity |
| `ActionGraph.DependenciesPreserved` | helper/apt-helper/src/startup_contract.cpp:431-440 | One action depends on another before exactly when their ranks do after |
| `ActionGraph.BuildRemap` | helper/apt-helper/src/startup_contract.cpp:431-433 | The array loop inverts the sorted order |
| `ActionGraph.MoveAction` | helper/apt-helper/src/startup_contract.cpp:435-438 | Renaming and sorting one parent list in place; repeats are refused |
| `ActionGraph.ActionList.Normalize` | helper/apt-helper/src/startup_contract.cpp:414-442 | The in-place pass installs the normal form, or fails and leaves the list as it was |
| `PlanManifest.ReadInputs` | helper/apt-helper/src/startup_contract.cpp:462-472 | The loop over sealed inputs accepts strictly ascending digests, and tells duplicates from misordering |
| `PlanManifest.InputsAscend` | helper/apt-helper/src/startup_contract.cpp:462-472 | Accepted inputs are strictly ascending by digest and have non-zero roles |
| `PlanManifest.AcceptedIsNormal` | helper/apt-helper/src/startup_contract.cpp:448-479 | An accepted manifest's graph is the fixed point of normalisation and its inputs ascend strictly |
| `PlanManifest.FieldsInTurn` | helper/apt-helper/src/startup_contract.cpp:279-288 | A canonical map that passes the count-and-lookup test lists exactly the fields 1 to n in turn |
| `PlanManifest.ManifestDeterminesBytes` | helper/apt-helper/src/startup_contract.cpp:448-479 | Two accepted encodings of one manifest are equal exactly when both, or neither, had their time wrapped by the signed cast |
| `PlanManifest.SecondEncodingExactly` | helper/apt-helper/src/startup_contract.cpp:448-479 | An accepted manifest has a second accepted encoding exactly when its stored time is negative and the other form of it fits the size limit; whenever the cast wrapped the time, a different byte string parses to the same manifest |
| `ManifestForm.RootParses` | helper/apt-helper/src/startup_contract.cpp:448-479 | The written form of a manifest, field by field with each value under its own number, parses to that manifest |
| `ManifestForm.ParsesExactly` | helper/apt-helper/src/startup_contract.cpp:448-479 | The helper accepts bytes as a manifest if and only if the manifest is within its bounds with ascending inputs and a normalised graph, and the bytes are its written form, with the time in either form that means it, within the size limit |
| `ManifestFaults.InputsRefused` | helper/apt-helper/src/startup_contract.cpp:464-472 | Sealed inputs are refused with an error if and only if that is the fault of the first item that is not the next input: no input at all, a repeated digest, or one out of order |
| `ManifestFaults.RootRefusals` | helper/apt-helper/src/startup_contract.cpp:448-479 | Why a well-formed root is refused: its kind, the number of its fields, their keys, the version, each field by itself, the first faulty input, and last the actions, in that order and with these errors |
| `Sha256.Hasher.Update` | helper/apt-helper/src/startup_contract.cpp:63-82 | Absorbs any input: the ghost message grows by it, whole blocks are folded, the rest is buffered and fewer than 64 bytes are in use |
| `Sha256.Hasher.Mark` | helper/apt-helper/src/startup_contract.cpp:83-89 | The marker byte and, when the length no longer fits, the extra block |
| `Sha256.Hasher.Final` | helper/apt-helper/src/startup_contract.cpp:83-102 | The digest is the one-shot digest of everything absorbed (sections 5.1.1 and 6.2.2 of FIPS 180-4) |
| `Sha256.HashChunks` | helper/apt-helper/src/startup_contract.cpp:59-152 | However a message is split over updates, the digest is that of the whole message |
| `Sha256.WriteState` | helper/apt-helper/src/startup_contract.cpp:95-101 | State words are written most significant byte first |
| `Sha256.LengthFieldExact` | helper/apt-helper/src/startup_contract.cpp:84-93 | Below 2^61 bytes the length field holds the exact bit length |
| `Sha256.DigestCollision` | helper/apt-helper/src/startup_contract.cpp:59-152 | Two different messages below 2^61 bytes with one digest collide inside the compression function, in a round of computing each |
| `EventChain.EventPreimageInjective` | crates/rp-broker-core/src/lib.rs:2221-2236 | The hashed bytes of an event determine its request, number, link, state and reason |
| `EventChain.ChainGrows` | crates/rp-broker-core/src/lib.rs:2171-2190 | Appending keeps a log numbered and linked |
| `EventChain.DigestCommits` | crates/rp-broker-core/src/lib.rs:2171-2236 | Equal digests anywhere in two logs: the logs agree up to there, or two of their events exhibit a collision |
| `EventChain.HistoryCommitment` | crates/rp-broker-core/src/lib.rs:2171-2236 | Equal final digests: identical histories of one request, or a collision between events of the two logs |
| `EventChain.ReceiptPreimageInjective` | crates/rp-broker-core/src/lib.rs:2192-2255 | With the filter on zero plan digests, the hashed bytes of a receipt determine all its fields |
| `EventChain.ReceiptCommitment` | crates/rp-broker-core/src/lib.rs:2192-2255 | Equal receipt digests: identical receipts over identical histories, or a collision exhibited |
| `EventChain.StateTextInjective` | crates/rp-broker-core/src/lib.rs:332-348 | Different states have different texts |
| `Lifecycle.LifecycleRecord.constructor` | crates/rp-broker-core/src/lib.rs:1986-2008 | A new record is in planning with one event |
| `Lifecycle.LifecycleRecord.Append` | crates/rp-broker-core/src/lib.rs:2171-2190 | One more event, numbered, linked and hashed |
| `Lifecycle.LifecycleRecord.Winner` | crates/rp-broker-core/src/lib.rs:2162-2169 | The new state, its event and, if terminal, its receipt |
| `Lifecycle.LifecycleRecord.PreExecutionGuard` | crates/rp-broker-core/src/lib.rs:2131-2152 | Closed, expired and stale are decided in that order and recorded |
| `Lifecycle.LifecycleRecord.DoApplyPlan` | crates/rp-broker-core/src/lib.rs:2012-2033 | Refines the plan step of the state machine |
| `Lifecycle.LifecycleRecord.DoDecide` | crates/rp-broker-core/src/lib.rs:2037-2060 | Refines the decision step |
| `Lifecycle.LifecycleRecord.DoCancel` | crates/rp-broker-core/src/lib.rs:2062-2073 | Refines the cancellation step |
| `Lifecycle.LifecycleRecord.DoBeginExecution` | crates/rp-broker-core/src/lib.rs:2077-2088 | Refines the start step |
| `Lifecycle.LifecycleRecord.DoFinishExecution` | crates/rp-broker-core/src/lib.rs:2091-2114 | Refines the finishing step, whose every outcome `LifecycleOutcomes.StepLeads` tells from the call |
| `Lifecycle.LifecycleRecord.DoReconcile` | crates/rp-broker-core/src/lib.rs:2116-2129 | Refines the reconciliation step |
| `Lifecycle.StepIsAnEdge` | crates/rp-broker-core/src/lib.rs:2012-2169 | Every call changes nothing or takes one permitted edge, with that edge's reason |
| `Lifecycle.RunWellFormed` | crates/rp-broker-core/src/lib.rs:1982-2219 | Over any calls: the log is chained and a history of permitted edges of at most six events, the receipt exists exactly in terminal states and matches the record and its last event, and a plan is for the requested package |
| `Lifecycle.EdgesDescend` | crates/rp-broker-core/src/lib.rs:313-329 | Permitted edges strictly lower a rank |
| `Lifecycle.TerminalForever` | crates/rp-broker-core/src/lib.rs:2131-2160 | A closed record, receipt included, never changes |
| `Lifecycle.RaceOrder` | crates/rp-broker-core/src/lib.rs:2131-2152 | Before execution, expiry beats staleness and staleness beats every decision, cancellation and start |
| `Lifecycle.ErrorsChangeNothing` | crates/rp-broker-core/src/lib.rs:2012-2152 | A call that fails changed nothing, unless expiry or staleness closed the record under it |
| `Lifecycle.ExecutionAuthorised` | crates/rp-broker-core/src/lib.rs:1982-2169 | A record that was ever executing began planning, pending, approved, executing; three calls of the run, in that order and answered with success in those states, planned the requested package, approved this digest and generation, and started it, the last two before the deadline and under the live generation |
| `Lifecycle.StartsAtMostOnce` | crates/rp-broker-core/src/lib.rs:2077-2088 | Over any run at most one call is answered with executing |
| `LifecycleOutcomes.StepLeads` | crates/rp-broker-core/src/lib.rs:2012-2169 | A call that leads somewhere, told from the record, the clock, the generation and the call alone, takes the record there and changes nothing else but the log; expiry and staleness are answered as a lost race |
| `LifecycleOutcomes.StepStays` | crates/rp-broker-core/src/lib.rs:2012-2160 | Any other call leaves the record alone and is refused for the reason that applies first |
| `LifecycleOutcomes.EdgesAreTaken` | crates/rp-broker-core/src/lib.rs:283-329 | An edge is permitted if and only if some call takes some record along it, and a state is terminal if and only if no edge leaves it |
| `LifecycleOutcomes.HistoryExactly` | crates/rp-broker-core/src/lib.rs:1982-2169 | Over any run of a new record, its history shows a state if and only if some call of the run led there: approved and denied only by a decision in time on this digest and generation, succeeded only by a reported success, and so on for each state |
| `LifecycleOutcomes.OutcomeExactly` | crates/rp-broker-core/src/lib.rs:1982-2169 | Over any run, a record is closed in a state if and only if the call that closed it reported or found just that |
| `BrokerStore.Broker.DoSubmit` | crates/rp-broker-core/src/lib.rs:709-775 | Runs the intake transaction: commits its whole database or changes nothing |
| `BrokerStore.Broker.DoTransitionNonterminal` | crates/rp-broker-core/src/lib.rs:780-843 | Runs the compare-and-set transaction |
| `BrokerStore.Broker.DoTransitionTerminal` | crates/rp-broker-core/src/lib.rs:1256-1292 | Runs a terminal transition with its receipt in one transaction; what is written and sealed is `BrokerOutcomes.TerminalExactly` |
| `BrokerStore.Broker.DoReconcileRecovery` | crates/rp-broker-core/src/lib.rs:1215-1254 | Runs reconciliation with its evidence in one transaction |
| `BrokerStore.Broker.DoPrepareForDecision` | crates/rp-broker-core/src/lib.rs:850-952 | Freezes, signs and binds a plan in one transaction |
| `BrokerStore.Broker.DoReplaceCredentials` | crates/rp-broker-core/src/lib.rs:957-995 | Deletes and inserts the pinned set in one transaction, all or nothing |
| `BrokerStore.Broker.DoStartBoot` | crates/rp-broker-core/src/lib.rs:650-707 | The loop that expires waiting work at a new boot, all or nothing |
| `BrokerStore.Broker.DoCommitDecision` | crates/rp-broker-core/src/lib.rs:1106-1190 | The write transaction of a verified decision |
| `BrokerStore.Broker.Initialize` | crates/rp-broker-core/src/lib.rs:572-617 | Pins the key and the device id, and remembers the id |
| `BrokerRuns.UpdateKeeps` | crates/rp-broker-core/src/lib.rs:1616-1676 | One permitted step of one request keeps the whole-table invariant, unique indexes included |
| `BrokerRuns.RunKeeps` | crates/rp-broker-core/src/lib.rs:650-1292 | Over any sequence of transactions: request ids and (uid, operation key) pairs are unique, one open request per device, every log is numbered, linked and ends in the row's state along permitted edges (plus planning to expired), receipts exist exactly in terminal states and are sealed over the row's own identifier, request digest, plan digest, state, recovery evidence and times, bindings are what was signed and frozen after planning, closed rows never change |
| `BrokerRuns.EmptyKeeps` | crates/rp-broker-core/src/lib.rs:531-568 | A store nothing was submitted to satisfies the whole-table invariant, and so does every store reached from one |
| `BrokerRuns.ErrorsChangeNothing` | crates/rp-broker-core/src/lib.rs:650-1292 | Every transaction that returns an error leaves the database and the handle as they were; the rollback itself is how a transaction is modelled |
| `BrokerRuns.OperationNamesOneRequest` | crates/rp-broker-core/src/lib.rs:722-732 | After any run, repeating an operation key changes nothing and returns the same request, or a conflict when the input hashes differently |
| `BrokerRuns.OneActivePerDevice` | crates/rp-broker-core/migrations/0001_initial.sql:22-24 | Two requests of one device are never both open |
| `BrokerRuns.ClosedForever` | crates/rp-broker-core/migrations/0003_identity_receipts.sql:8-23 | A closed request keeps its row, log and receipt through any run |
| `BrokerRuns.LeavesPendingOnce` | crates/rp-broker-core/src/lib.rs:1616-1676 | Under any interleaving a request leaves pending at most once |
| `BrokerRuns.DecisionStillBound` | crates/rp-broker-core/src/lib.rs:1058-1190 | Between reading and committing anything may run: an approval or denial still commits only on a pending request under the generation it was verified for, with the digest, nonce and expiry of the context still the request's own, and the verified credential pinned and not quarantined when read |
| `BrokerRuns.RebootExpires` | crates/rp-broker-core/src/lib.rs:663-705 | A new epoch other than zero expires exactly what was planning, pending or approved, and leaves everything else untouched |
| `BrokerRuns.EpochZeroExpiresNothing` | crates/rp-broker-core/src/lib.rs:669-674 | At epoch zero the column default makes every request look current |
| `BrokerRuns.IdentityForever` | crates/rp-broker-core/src/lib.rs:572-617 | A pinned identity never changes, and only its key can open it |
| `BrokerRuns.CredentialsReplacedExactly` | crates/rp-broker-core/src/lib.rs:957-994 | Replacing credentials succeeds if and only if the list is not empty, every pin is acceptable, no identifier repeats and the generation fits; then exactly these credentials remain, unused and under the new generation, and requests are untouched |
| `BrokerRuns.CommitCountsUse` | crates/rp-broker-core/src/lib.rs:1109-1190 | A committed approval or denial raises the counter of the credential it was verified under, never lowers it, and touches no other; a commit that finds the generation gone touches none; none comes or goes |
| `BrokerGuards.ClosesExactlyWhenIdDecodes` | crates/rp-broker-core/src/lib.rs:1194-1292 | With the other guards met, a transition into a terminal state succeeds if and only if the request identifier decodes to 16 bytes |
| `BrokerGuards.UndecodableNeverCloses` | crates/rp-broker-core/src/lib.rs:1530-1532 | A request whose identifier does not decode holds its slot after any run |
| `BrokerGuards.BootsExactlyWhenIdsDecode` | crates/rp-broker-core/src/lib.rs:650-706 | With the other guards met, a new boot succeeds if and only if the identifier of every request that waits decodes, and at epoch zero always |
| `BrokerGuards.UndecodableBlocksBoot` | crates/rp-broker-core/src/lib.rs:677-698 | While a request waits whose identifier does not decode, no new boot epoch but zero can start, whatever the other guards say |
| `BrokerGuards.PreparesExactlyWhenNameFreezes` | crates/rp-broker-core/src/lib.rs:850-950 | With the other guards met, a request in planning is frozen and signed if and only if its package name begins with a letter, which is what the signed form asks beyond intake |
| `BrokerGuards.CreatesExactly` | crates/rp-broker-core/src/lib.rs:709-775 | Intake creates a request if and only if policy allows it, the generation fits, and no row has its identifier, its operation key or its device's slot; nothing more is asked of identifier and name |
| `BrokerGuards.IntakeTakesBoth` | crates/rp-broker-core/src/lib.rs:67-139 | Witnesses: an identifier that does not decode, and the name "7zip" that does not freeze, both enter a new store |
| `BrokerGuards.UndecodableBlocksIntake` | crates/rp-broker-core/src/lib.rs:734-743 | After a request whose identifier does not decode, its device never takes a new request, in any run |
| `BrokerOutcomes.SubmitAgain` | crates/rp-broker-core/src/lib.rs:722-732 | A retry under a known operation key changes nothing: it finds the request of that key, or conflicts when the input hashes differently |
| `BrokerOutcomes.SubmitBusy` | crates/rp-broker-core/src/lib.rs:734-743 | A new operation meets the one request that is open on the device, in whatever open state that is |
| `BrokerOutcomes.SubmitNew` | crates/rp-broker-core/src/lib.rs:744-775 | Otherwise intake adds exactly one row, whose every value is named, unless the generation does not fit or the identifier is taken |
| `BrokerOutcomes.RetryFindsOriginal` | crates/rp-broker-core/src/lib.rs:709-775 | After a request was created, and whatever ran since, the same call finds it |
| `BrokerOutcomes.InitializeExactly` | crates/rp-broker-core/src/lib.rs:572-617 | The first key is pinned with its device id and stays the only one; the pinned device id is the one in use |
| `BrokerOutcomes.OnlyPinnedKeySigns` | crates/rp-broker-core/src/lib.rs:1432-1450 | No transaction that signs succeeds under a key other than the pinned one |
| `BrokerOutcomes.NonterminalExactly` | crates/rp-broker-core/src/lib.rs:780-845 | Compare-and-set: refused edges and lost races are told apart, and else exactly one row moves, by its state and one event |
| `BrokerOutcomes.UnknownRequest` | crates/rp-broker-core/src/lib.rs:780-1292 | No transaction moves, prepares, closes or decides a request that is not in the table |
| `BrokerOutcomes.TerminalExactly` | crates/rp-broker-core/src/lib.rs:1256-1292 | A request closes with a receipt sealed in the same transaction over its own values, named one by one, and with nothing else of the table changed |
| `BrokerOutcomes.CloseRefusals` | crates/rp-broker-core/src/lib.rs:1486-1578 | An open request is closed unless an identifier does not decode, it would complete before it was created, sealing fails or the receipt identifier is taken; each with its error |
| `BrokerOutcomes.ReconcileExactly` | crates/rp-broker-core/src/lib.rs:1215-1254 | A request in recovery closes as reported, with the evidence in its row and in what is sealed; other states and evidence that is empty or too long are refused |
| `BrokerOutcomes.PrepareExactly` | crates/rp-broker-core/src/lib.rs:850-950 | A planning request is frozen and bound, sealed over exactly the store's, the row's, the planner's and the caller's values, or refused for the first reason that applies, each with its error |
| `BrokerOutcomes.CommitExactly` | crates/rp-broker-core/src/lib.rs:1106-1190 | The write of a decision: stale if the generation moved on, else what was decided; a denial's receipt is sealed over exactly the evidence handed in, an approval has none |
| `BrokerOutcomes.ReadPhaseExactly` | crates/rp-broker-core/src/lib.rs:1058-1105 | A submission that names the stored request in every value is to close it as expired if either clock reached its limit, else as stale if the generation was superseded, else proceeds if and only if it is genuine under a pinned credential of that generation |
| `BrokerOutcomes.ReadRefusals` | crates/rp-broker-core/src/lib.rs:1001-1072 | Why any other submission is refused: the row's state first, the context last |
| `BrokerOutcomes.BootExactly` | crates/rp-broker-core/src/lib.rs:650-706 | A boot that starts expires exactly the requests that waited, each with a receipt sealed under an identifier drawn for it, leaves every other row alone and answers with their number |
| `Identifiers.DecodesExactly` | crates/rp-broker-core/src/lib.rs:83-97 | An identifier decodes if and only if it is the base64url text of 16 bytes, and then of no others |
| `BrokerDecisions.RowAfter` | crates/rp-broker-core/src/lib.rs:650-1292 | Any transaction moves at most the row it is aimed at, along one edge with one event, and every other row stays or is expired by a boot |
| `BrokerDecisions.VerdictExactly` | crates/rp-broker-core/src/lib.rs:780-1292 | A row enters approved or denied in a step if and only if a decision on it commits with that outcome, or a caller moves it there from pending |
| `BrokerDecisions.VerdictsOfRun` | crates/rp-broker-core/src/lib.rs:780-1292 | From a new store on, a history shows approved (or denied) if and only if some step of the run was such a decision or such a move |
| `BrokerDecisions.VerdictMeansDecision` | crates/rp-broker-core/src/lib.rs:1058-1190 | If no caller moves a request there directly and decisions are read and verified before they commit, a history that shows a verdict has behind it a committed decision on a genuine submission that names this request, its digest, generation, nonce and expiry |
| `BrokerDecisions.ExecutedMeansApproved` | crates/rp-broker-core/src/lib.rs:1058-1190 | Under the same condition, whatever is approved, executing, in recovery, succeeded or failed was approved by such a decision |
| `BrokerDecisions.ApprovedWithoutDecision` | crates/rp-broker-core/src/lib.rs:780-845 | The condition is needed: three permitted calls leave an approved request that was never frozen, shown or decided |
| `BrokerDecisions.ApprovalsLookAlike` | crates/rp-broker-core/src/lib.rs:1875-1891 | A direct move into approved leaves the same rows and events, reasons included, as a committed approval |
| `BrokerDecisions.DenialsLookAlike` | crates/rp-broker-core/src/lib.rs:1194-1213 | A direct denial leaves the same state and events as a committed one, and touches no other row |
| `Fields.ReadFields` | crates/rp-protocol/src/schema.rs:831-847 | The filling loop collects the fields, and stops at the first key that is not unsigned or is repeated |
| `Fields.SameFieldsSameNormal` | crates/rp-protocol/src/schema.rs:831-847 | Two maps with the same fields, in whatever order they list them, have the same normal form |
| `Fields.FieldsOfNormal` | crates/rp-protocol/src/schema.rs:831-847 | Normalising a map normalises its fields and changes nothing else about them |
| `Fields.ReencodesFields` | crates/rp-protocol/src/schema.rs:831-856 | If decoded fields are also what a listing says, in any order, encoding the listing gives back the bytes |
| `Fields.DecodesFields` | crates/rp-protocol/src/schema.rs:831-856 | Encoding a listing gives bytes whose fields are the listing's, each in normal form |
| `Fields.DecodedMapCollects` | crates/rp-protocol/src/schema.rs:837-846 | A decoded map with unsigned keys never repeats one |
| `Fields.RequiredSigned` | crates/rp-protocol/src/schema.rs:883-891 | A signed field is the number whose two forms the writer uses |
| `Fields.RejectUnknown` | crates/rp-protocol/src/schema.rs:849-856 | Passes exactly when every key is known |
| `FieldReader.Reader.RefuseUnknown` | crates/rp-protocol/src/schema.rs:849-856 | Going through the keys in order finds the least unknown one |
| `FieldReader.Reader.Take` | crates/rp-protocol/src/schema.rs:858-862 | A field is read and removed |
| `FieldReader.ReadEvent` | crates/rp-protocol/src/schema.rs:503-517 | Reading an event by removing fields one after another gives what its fields say |
| `Messages.ContextDecodeEncode` | crates/rp-protocol/src/schema.rs:250-311 | A context that decodes encodes to the same bytes |
| `Messages.ContextEncodeDecode` | crates/rp-protocol/src/schema.rs:250-311 | A context that encodes decodes to itself, its texts within bounds |
| `Messages.ContextFromComplete` | crates/rp-protocol/src/schema.rs:294-310 | Exactly the contexts within the text bounds read back |
| `Messages.ChallengeFixesContext` | crates/rp-protocol/src/schema.rs:281-284 | The bytes hashed into the WebAuthn challenge determine all ten context fields |
| `Messages.ApproveAndDenyDiffer` | crates/rp-protocol/src/schema.rs:246-284 | Approving and denying one context are never hashed from the same bytes |
| `Events.EventDecodeEncode` | crates/rp-protocol/src/schema.rs:458-517 | An event that decodes encodes to the same bytes although its optional fields are pushed last; its link is absent exactly at sequence zero |
| `Events.EventEncodeDecode` | crates/rp-protocol/src/schema.rs:458-517 | An event that encodes decodes to itself |
| `Events.SubmissionDecodeEncode` | crates/rp-protocol/src/schema.rs:327-372 | A decision submission, with the context nested in it, re-encodes to the same bytes |
| `Events.SubmissionEncodeDecode` | crates/rp-protocol/src/schema.rs:327-372 | A decision submission that encodes decodes to itself |
| `Requests.RequestDecodeEncode` | crates/rp-protocol/src/schema.rs:140-230 | A request, with its operation input and frozen plan, re-encodes to the same bytes |
| `Requests.RequestEncodeDecode` | crates/rp-protocol/src/schema.rs:140-230 | A request that encodes decodes to itself with its frozen plan in normal form |
| `Requests.RequestReadsBack` | crates/rp-protocol/src/schema.rs:194-230 | A request that reads back has a map for its plan and expires no earlier than it was created |
| `FlatMessages.DecodeEncode` | crates/rp-protocol/src/schema.rs:389-440 | For receipts, plan manifests, enrollment statements, keysets and revocations: what decodes re-encodes to the same bytes |
| `FlatMessages.EncodeDecode` | crates/rp-protocol/src/schema.rs:539-604 | For the same messages: what encodes decodes to the same message with nested values in normal form |
| `FlatMessages.ValidMessage` | crates/rp-protocol/src/schema.rs:570-576 | A message validates exactly when its parts fit its table and the cross-field check passes |
| `Digests.PreimagesSeparate` | crates/rp-protocol/src/digest.rs:22-44 | No hash input serves two domains or two values with different normal forms |
| `Digests.LabelsArePrefixFree` | crates/rp-protocol/src/digest.rs:22-34 | A label and what follows it cannot be read as another label |
| `Cose.ReadProtected` | crates/rp-protocol/src/cose.rs:260-287 | The loop over header entries computes the header function |
| `Cose.ProtectedDecodeEncode` | crates/rp-protocol/src/cose.rs:242-287 | A protected header that parses is the one encoding of its key id and content type |
| `Cose.ProtectedEncodeDecode` | crates/rp-protocol/src/cose.rs:242-287 | A protected header that encodes parses back |
| `Cose.Sign1DecodeEncode` | crates/rp-protocol/src/cose.rs:152-209 | An envelope that decodes encodes to the same bytes, nested header included |
| `Cose.Sign1EncodeDecode` | crates/rp-protocol/src/cose.rs:152-209 | An envelope that encodes decodes to itself |
| `Cose.SignedBytesDetermine` | crates/rp-protocol/src/cose.rs:289-300 | The signed structure of section 4.4 of RFC 9052 determines protected header, domain and payload |
| `Acceptance.FieldsSentExactly` | crates/rp-protocol/src/cbor.rs:117-178 | Any listing of distinct fields encodes if and only if each value's normal form is within the profile and the whole fits |
| `Acceptance.ContextSentExactly` | crates/rp-protocol/src/schema.rs:250-311 | A context encodes if and only if its two texts are within their bounds |
| `Acceptance.EventSentExactly` | crates/rp-protocol/src/schema.rs:458-517 | An event encodes if and only if it has a predecessor unless it is the first |
| `Acceptance.SubmissionSentExactly` | crates/rp-protocol/src/schema.rs:327-372 | A submission encodes if and only if its context does and its byte strings are within their bounds |
| `Acceptance.RequestSentExactly` | crates/rp-protocol/src/schema.rs:140-230 | A request encodes if and only if it expires no earlier than it was created, its plan is a map within the profile, its note is short and the whole fits |
| `Acceptance.FlatSentExactly` | crates/rp-protocol/src/schema.rs:389-440 | A message of a table encodes if and only if its parts are within the table's bounds, the check between fields passes, nested values are within the profile and the whole fits |
| `Acceptance.HeaderSentExactly` | crates/rp-protocol/src/cose.rs:235-258 | A protected header exists exactly for key ids of 8 to 32 bytes |
| `Acceptance.EnvelopeSentExactly` | crates/rp-protocol/src/cose.rs:193-209 | An envelope encodes if and only if its header is the one for its key id and content type, the key id is in bounds and the payload has at most 65,536 bytes |
| `Rpc.FrameDecodeEncode` | crates/rp-broker-api/src/lib.rs:462-522 | A frame that decodes encodes to the same bytes |
| `Rpc.FrameEncodeDecode` | crates/rp-broker-api/src/lib.rs:462-522 | A message that encodes decodes to itself with its body or details in normal form |
| `Rpc.EncodesExactly` | crates/rp-broker-api/src/lib.rs:462-522 | A message encodes if and only if bodies and details are maps and the envelope of its normal form is within the profile and fits a frame |
| `Rpc.DecodesExactly` | crates/rp-broker-api/src/lib.rs:462-522 | Some packet decodes to a message if and only if the message is in normal form within the profile, with maps where maps belong, and its envelope fits a frame |
| `Rpc.BodyAcceptedExactly` | crates/rp-broker-api/src/lib.rs:319-335 | Some packet decodes to a request, or to a response, with a given body if and only if the body is a map, canonical one level down, and encodes to at most 65,510 bytes; its keys do not matter |
| `Rpc.TextKeyedBodyTravels` | crates/rp-broker-api/src/lib.rs:319-335 | Witness: a body under a text key encodes, and decodes to itself |
| `Rpc.CodeParses` | crates/rp-broker-api/src/lib.rs:359-402 | Every error code's text parses back to it |
| `SpoolCodec.DecodeListExactly` | crates/rp-relay/src/lib.rs:355-418 | Bytes are accepted as a list of entries if and only if they are that list's bytes and the list is within every limit, all input consumed |
| `SpoolCodec.DecodeEncode` | crates/rp-relay/src/lib.rs:327-418 | Every well-formed spool reads back as itself |
| `SpoolCodec.EncodeDecode` | crates/rp-relay/src/lib.rs:327-418 | Accepted bytes give a well-formed spool, and writing it again gives the same bytes exactly when they listed it in identifier order |
| `SpoolCodec.CodesRoundTrip` | crates/rp-relay/src/lib.rs:420-453 | Direction and kind codes correspond one to one |
| `SpoolReader.EncodeSpool` | crates/rp-relay/src/lib.rs:327-353 | The writing loop appends the entries in identifier order |
| `SpoolReader.Reader.ReadEntry` | crates/rp-relay/src/lib.rs:373-399 | The cursor reads one entry and moves past it |
| `SpoolReader.DecodeSpool` | crates/rp-relay/src/lib.rs:355-418 | The reading loop computes the decoding function, repeats refused |
| `RelaySpool.NextReady` | crates/rp-relay/src/lib.rs:160-170 | The first ready envelope in identifier order, if any is ready |
| `RelaySpool.Retained.Enqueue` | crates/rp-relay/src/lib.rs:136-156 | Adds exactly the envelope, or refuses and changes nothing |
| `RelaySpool.Retained.NextDelivery` | crates/rp-relay/src/lib.rs:160-170 | Returns the first ready envelope and keeps it, counting the attempt |
| `RelaySpool.Retained.Acknowledge` | crates/rp-relay/src/lib.rs:174-187 | Runs the acknowledgement; that it removes exactly the envelope whose key matches is `RelayOutcomes.AcknowledgeExactly` |
| `RelaySpool.Retained.RetryLater` | crates/rp-relay/src/lib.rs:191-202 | Moves one retry time |
| `RelaySpool.FileSpool.Persist` | crates/rp-relay/src/lib.rs:302-324 | Saving runs create, write, sync, rename and directory sync, and may stop after any of them |
| `RelaySpool.FileSpool.Handle` | crates/rp-relay/src/lib.rs:238-290 | A request works on a copy, saves it and only then adopts it |
| `RelaySpool.OpenSpool` | crates/rp-relay/src/lib.rs:227-235 | Opening reads exactly the live snapshot, starts empty without one, and fails exactly on a file that does not decode |
| `RelaySpool.BackoffBounds` | crates/rp-relay/src/lib.rs:281-286 | The wait doubles from one second to five minutes, never wraps and never shrinks |
| `RelaySpool.SaveIsAtomic` | crates/rp-relay/src/lib.rs:302-324 | Stopped anywhere, what a crash can bring back is what it could before or exactly the new entries; only the former before the rename, only the latter after success |
| `RelaySpool.CrashChooses` | crates/rp-relay/src/lib.rs:226-235 | After a crash the spool opens, as one of the snapshots that were possible |
| `RelaySpool.NothingPromisedIsLost` | crates/rp-relay/src/lib.rs:226-325 | Over any calls, failures, restarts and crashes, an envelope whose enqueue reported success stays in memory and in everything a crash can bring back, until an acknowledgement with its own key is attempted |
| `RelaySpool.ReopensExactly` | crates/rp-relay/src/lib.rs:226-325 | Over any run, what reopening can find is, attempt counts aside, exactly the entries of the last successful save or crash and of saves since then that stopped between rename and directory sync; memory is always one of them |
| `RelaySpool.CallIsAtomic` | crates/rp-relay/src/lib.rs:302-324 | A call after any settled run, whether it succeeds, fails or is cut short, leaves a disk that reopens as memory before the call or as what the call asked for; only the former before the rename, only the latter after success |
| `RelaySpool.EmptySystemMatches` | crates/rp-relay/src/lib.rs:226-235 | A machine with no spool file starts such a run |
| `RelayOutcomes.EnqueueExactly` | crates/rp-relay/src/lib.rs:136-156 | A new envelope enters under its own identifier, untried and ready at once, and disturbs no other entry; duplicates and a full spool are told apart |
| `RelayOutcomes.AcknowledgeExactly` | crates/rp-relay/src/lib.rs:174-187 | An acknowledgement under the envelope's own key removes it and disturbs no other entry; an unknown identifier and another key are told apart |
| `RelayOutcomes.RetryExactly` | crates/rp-relay/src/lib.rs:191-202 | A retry puts the envelope off by the wait its attempts have earned, capped at the last time, and changes nothing else |
| `RelayOutcomes.DeliverExactly` | crates/rp-relay/src/lib.rs:160-170 | A delivery counts one attempt on the envelope it hands out, as far as the counter goes, and changes nothing else |
| `RelayOutcomes.AcknowledgedIsGone` | crates/rp-relay/src/lib.rs:226-325 | Over any run, after an acknowledgement that reported success neither memory nor anything a crash can bring back holds the identifier, until it is enqueued again |
| `RelayOutcomes.HeldWasEnqueued` | crates/rp-relay/src/lib.rs:226-325 | Over any run from an empty spool, whatever memory holds or a crash could bring back was enqueued by a request of the run, as it was given |
| `Projection.MutateDelivery` | crates/rp-testkit/src/lib.rs:74-90 | The script loop drops, repeats and reorders but invents nothing |
| `Projection.ProjectionChain.IngestEvent` | crates/rp-relay/src/lib.rs:539-556 | Refines the ingest step |
| `Projection.ProjectionChain.RestoreContiguous` | crates/rp-relay/src/lib.rs:561-573 | Adopts the list when every event applies in turn, and otherwise changes nothing |
| `Projection.GuardHoldsPrefix` | crates/rp-relay/src/lib.rs:518-556 | However one true chain of fewer than 2^64-1 events is delivered, the guard holds exactly a gap-free prefix; once frozen it does not move |
| `Projection.AnyScriptLeavesPrefix` | crates/rp-relay/src/lib.rs:518-556 | The same for every delivery script from the start |
| `Projection.RestoresExactly` | crates/rp-relay/src/lib.rs:561-573 | A restore succeeds exactly on lists numbered from one without a gap, and installs exactly the list |
| `Projection.FrozenStays` | crates/rp-relay/src/lib.rs:530-533 | A frozen guard ignores whatever arrives, until a restore |
| `Projection.ConflictFreezes` | crates/rp-relay/src/lib.rs:530-560 | After any delivered chain shorter than the counter is wide, a different event under a number already applied freezes the guard |
| `Projection.IngestExactly` | crates/rp-relay/src/lib.rs:530-560 | What any event does to a guard holding the first n of a chain: number n+1 is applied, an applied number with its own digest is a duplicate, anything else freezes |
| `Projection.SaturatedCounterReapplies` | crates/rp-relay/src/lib.rs:544-547 | The bound is exact: once a delivered chain reaches the last number, a different event under that number is applied again in place of the first |
| `ServiceProjection.ChainIsContiguous` | service/api/src/projection-repository.ts:248-257 | The loop carrying the prior digest decides whether a chain is contiguous from zero |
| `ServiceProjection.Repository.ApplyVerifiedEvent` | service/api/src/projection-repository.ts:113-167 | Refines the apply step, or leaves the table alone; the step is told for every event by `ServiceProjection.ApplyExactly` |
| `ServiceProjection.Repository.ReplaceFromVerifiedResync` | service/api/src/projection-repository.ts:61-111 | Installs the verified chain, or leaves the table alone |
| `ServiceProjection.ApplyKeepsGapFree` | service/api/src/projection-repository.ts:113-167 | Any event at all keeps the rows gap-free from zero and the verified sequence at rows minus one |
| `ServiceProjection.TableHoldsPrefix` | service/api/src/projection-repository.ts:61-167 | However one true chain arrives, with whatever resyncs to it, the table holds exactly a gap-free prefix |
| `ServiceProjection.InOrderArrivesWhole` | service/api/src/projection-repository.ts:113-167 | A chain with distinct digests delivered in order is taken whole and leaves nothing frozen |
| `ServiceProjection.ApplyExactly` | service/api/src/projection-repository.ts:113-167 | What any event does to a gap-free table of n rows: a stored number with its digest changes nothing and is a duplicate; a stored number with another digest, a number above n, or n with a wrong link leaves the rows alone, freezes and queues a resync; n with the right link is added |
| `ServiceProjection.ReplaceExactly` | service/api/src/projection-repository.ts:61-111 | A resync is installed if and only if it is not empty, valid, numbered from zero, linked and without repeated digests; then the rows are exactly its events, nothing is frozen and no resync is queued |
| `Outbox.GenerationClaimedOnce` | service/migrations/0002_outbox_claim_function.sql:57-90 | Over any interleaving, a new claim of a row has a higher generation than every claim the row ever had |
| `Outbox.EffectNeedsNewestClaim` | service/worker/src/outbox-worker.ts:119-153 | A completion or reschedule that takes effect was made under the newest claim of its row |
| `Outbox.EffectExactlyForNewest` | service/worker/src/outbox-worker.ts:119-153 | Of the claims of a row that is still there, a completion or reschedule takes effect if and only if no other claim of the row is newer |
| `Outbox.RemovedWasDelivered` | service/worker/src/outbox-worker.ts:104-134 | A row removed by a worker was delivered under its latest generation, then and forever; that nothing else is removed is `OutboxRows.NoRowIsLost` |
| `Outbox.StepKeeps` | service/migrations/0002_outbox_claim_function.sql:16-92 | Every step of workers and service keeps claims at or below their row's generation |
| `Outbox.Service.RunOnce` | service/worker/src/outbox-worker.ts:93-117 | One worker's pass, with deliveries and completions that fail or throw after committing, and with anything running in between, reports only rows delivered and removed under this pass's claim |
| `Outbox.LateRescheduleIsHarmless` | service/worker/src/outbox-worker.ts:112-114 | Rescheduling an item whose completion did commit changes nothing |
| `OutboxRows.StepRows` | service/migrations/0002_outbox_claim_function.sql:16-92 | What every step does to every row: claiming leases the chosen rows and counts their generation, completing removes the one row held under the claim, rescheduling counts an attempt and moves its time, and every other row is as it was |
| `OutboxRows.NoRowIsLost` | service/worker/src/outbox-worker.ts:93-153 | Over any run, whatever was inserted is still there as it was inserted, or a worker removed it after delivering it under its newest claim, or it was a resync of a relation that a step of the run dropped |
| `OutboxRows.PlainRowIsDelivered` | service/worker/src/outbox-worker.ts:93-153 | A row that a step of the run inserted leaves the table only by being delivered |
| `OutboxRows.ClaimTakesOldest` | service/migrations/0002_outbox_claim_function.sql:57-90 | A due row that a claim passes over came later, by visibility, creation and identifier, than every row it takes, and then it took as many as it may |
| `OutboxRows.ClaimIsDetermined` | service/migrations/0002_outbox_claim_function.sql:57-90 | The table, the locks, the limit and the clock fix what a claim takes |
| `OutboxRows.ClaimExists` | service/migrations/0002_outbox_claim_function.sql:57-90 | A claim can always be made, and takes something exactly when something is due and not locked |
| `Sha256.PaddingIsShortest` | helper/apt-helper/src/startup_contract.cpp:83-93 | No shorter run of zeros completes a block |
| `EventChain.ZeroPlanIsAmbiguous` | crates/rp-broker-core/src/lib.rs:2197-2200 | Without that filter a missing plan and an all-zero plan hash the same bytes |
| `EventChain.CodesRoundTrip` | crates/rp-broker-core/src/lib.rs:1853-1912 | Reason codes and reasons correspond one to one |
| `ServiceProjection.SuccessorUnfreezes` | service/api/src/projection-repository.ts:155-166 | The next event of the chain clears a freeze |
| `Outbox.LeaseExcludes` | service/migrations/0002_outbox_claim_function.sql:58-72 | A claimed row is not due while its lease runs and its time stands |
| `Outbox.RetryTimeRules` | service/migrations/0002_outbox_claim_function.sql:13-33 | A reschedule to a new time frees the row exactly from that time; to the same time the lease still counts |

## Left out

- Ed25519, WebAuthn parsing and random numbers: parameters. The flat list of checks around an assertion is one flag, except that the credential must be pinned under the context's generation and not quarantined.
- The round function of SHA-256: any compression function; its constants are not modelled.
- Sockets, peer credentials, file modes, `/proc`, SQLite pragmas, migrations and row-level security: system calls and plumbing.
- Order of a SQL scan without `ORDER BY`: rows come in insertion order. SQLite's own failures beside violated constraints are not modelled, and would leave the database unchanged like every other error.
- Null pointers, out-of-memory and the `std::sort` algorithm: sorting is a function with proved order and contents; equal keys are refused afterwards, so stability does not matter.
- Directory creation before a save, and operating-system errors other than stopping after a step: a failed save stops at any step.
- Fresh identifiers of outbox rows: assumed unused before, as version 4 UUIDs are. Validation of claimed rows' labels, which stops a worker's pass, is not modelled.
- Tenant context, the package allowlist and the policy trait: a submission carries whether policy allowed it.
- Agreement of the Rust and C++ plan manifests: fields 4, 7 and 8 have different types in the two, so they are compared as CBOR values only.
- HTTP, web pages, ceremony builders, command lines and the planner: no state to keep.
- A reschedule that itself throws, which ends a worker's pass: the rows left wait until their leases run out.
- BrokerRuns.ErrorsChangeNothing: follows from how a transaction is modelled, as a value that commits whole or not at all; SQLite's rollback of statements already executed is not modelled.
- Outbox.GenerationClaimedOnce: counts claims made through the claim function; rows that migrations or operators edit by hand are outside the model.
- Fields.RejectUnknown: which unknown field is named is stated for the reader that removes fields; which of several wrong fields of a message is reported first is followed by the model but not stated.
- HelperCbor.HelperExactly: which of its errors the helper's CBOR parser reports is followed, by the running parser too, but not told from the grammar as it is for the broker's.
- Messages.ContextFromComplete: texts are byte strings known to be UTF-8; no normalisation of text is modelled.
