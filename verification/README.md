# Verified model of the aggchain provers

A Dafny 4.11 model of the bridge-constraint verifier that runs inside the aggchain zkVM guest, of the host code that
assembles its witness, and of the encodings that the host, the guest and the contracts must agree on. Check the whole
project with `dafny verify dfyconfig.toml`.

## What is modelled

The guest receives a witness about a range of L2 blocks. It replays four hash chains between two block states (inserted
and removed global exit roots, claimed and unset global indices), subtracts removed and unset entries with a counting
filter, compares what survives with a commitment and with a list of proven roots, and checks the new local exit root.
The host reads the chain, orders the roots of a request, and writes the witness.

| file | source | subject |
|---|---|---|
| `CountingFilter.dfy`, `HashChain.dfy`, `StaticCall.dfy`, `BridgeConstraints.dfy` | `aggchain-proof-core/src/bridge` | the verifier, check by check |
| `Registry.dfy` | the GER contract's interface | the event-by-event machine whose calls the chains record |
| `BridgeTheorems.dfy` | `aggchain-proof-core/src/bridge` | binding, composition of ranges, meaning of an accepted input |
| `Bn254.dfy`, `Encodings.dfy`, `FullExecutionProof.dfy`, `AggchainProof.dfy` | `aggchain-proof-core/src` | key packing, encodings, the guest program |
| `AggchainInputs.dfy`, `ProofBuilder.dfy` | `aggchain-proof-types`, `aggchain-proof-builder` | order of roots, witness assembly, host and guest together |
| `KeyedMap.dfy`, `ContextMap.dfy` | `aggkit-prover-types`, `aggkit-prover` | the string-keyed context |
| `Text.dfy`, `RequestId.dfy` | `proposer-client` | text form of request ids |
| `Results.dfy`, `Bytes.dfy`, `Foreign.dfy` | | result types, fixed-width integers, outside data and outside code |

Outside code (keccak, SHA-256, EVM execution and return decoding, Merkle checking, leaf and claim commitments, signer
recovery, SP1 proof checking) is a record of functions, `Libraries`; every theorem holds for all values of it. No hash
is assumed injective: where two lists replay to one digest, `Bind` computes which of three things relates them
(equality, a cycle through the start value, or two distinct hashed pairs with one digest) and its contract proves it.
Answers of contracts and nodes are a parameter, `ContractsClient`.

The sketches and the caller of an accepted input are the prover's choice, and the host fetches two different sketches of
a block that ends one range and starts the next. So nothing is said of equal sketches: where two inputs are compared,
the hypothesis is `AnswerAlike`, that two sketches which can both run a call on one block return the same bytes. It
holds for every pair of sketches when the block decides what a call returns.

Definitions that a method and its specification share (what a hash absorbs, which field is the key of the filter, the
order of two roots, where a fetched value goes) are also stated from outside, without their names: `ReadOnChain`,
`RemainingClaimsByPosition`, `AcceptedExactly`, `ErrorSays`, `VerifiedExactly`, `SortedListSays`, `AssembledSays`,
`FirstFailureIsFirst` and the lemmas about single entries and bytes.

`filter_values`, `to_hash_bn254`, `sorted_inserted_gers`, `context`, `Deserialize` and `retrieve_chain_data` update
variables step by step and are methods, each proved against a specification; the rest is functions.

## Properties that hold on a condition

The code is modelled as it stands. Where a promise holds only sometimes, the exact condition is proved:

- The filter keeps exactly the live insertions of a contract run if and only if no live insertion has a key that was set
  before the range (`FilterRefinesRun`). `ReinsertedOldKeyIsDropped` is the smallest run where it does not.
- Two joined ranges keep the same positions as the ranges apart if and only if no removal of the later range reaches a
  survivor of the earlier and no unused removal of the earlier reaches a survivor of the later
  (`JoinedRangesKeepSamePositions`). `RemovedAcrossRanges` is a root inserted in the first range and removed in the
  second; `RunsSeparate` says the condition in terms of the contract calls. This characterises positions. Acceptance
  needs only equal survivors, which a root inserted again can give at other positions (`ReinsertedAcrossRanges`); for
  lists without repetition the same condition is exact for the survivors too (`JoinedDistinctRanges`).
- The list of roots is independent of the hash map and of the sort if and only if no two different roots of the range
  claim one (block number, block index) (`OrderIsDetermined`). `TwoRootsAtOnePlace` gives two lists for one map.
- `to_hash_bn254` returns if and only if the first word is at least 2^23; otherwise its exact-length copy panics
  (`PackingIsExact`). `ZeroKeyPanics` is such a key. The host packs the key only for an info-level log line, so it
  stops on such a key only when that line is evaluated (`RetrieveChainData`).
- Custom chain data reproduces the packed parameters if and only if the end block is below 2^32, because
  `claim_block_num` is `end_block as u32` while custom chain data carries all 64 bits (`CustomChainDataAgrees`).
  `EndBlockTruncated` is the first end block that fails.
- The guest hashes the very bytes the proposer sent if and only if those bytes are canonical (`ProposerBytesAreHashed`).
  `TrailingByteIgnored` gives bytes that are accepted and not hashed as sent.
- A text that `u64::from_str` accepts is read as a number if and only if it does not have 64 digits or its value is below
  ten: 64 decimal digits are read as bytes first (`NumbersParse`). `PaddedTenIsSixteen` is such a text, of the
  least such value.

Where code and its own tests or comments disagree, the code is followed. The selector takes the major version of
`crates/aggchain-proof-program/Cargo.toml:3`, which is 7, while
`crates/aggchain-proof-service/src/custom_chain_data/tests.rs:64` expects 6.
`compute_output_root` returns the state root alone, while its test at
`crates/aggchain-proof-core/src/full_execution_proof.rs:328` expects the hashed form. The comment at
`crates/aggchain-proof-service/src/service.rs:62` gives the selector two bytes; it has four.

## Model

| member | source | states |
|---|---|---|
| HashChain.ReplayAppend | crates/aggchain-proof-core/src/bridge/mod.rs:418-420 | replaying two lists in turn is replaying their concatenation |
| HashChain.ReplayLast | crates/aggchain-proof-core/src/bridge/mod.rs:418-420 | the last hash is absorbed last, as the second argument of the combining hash |
| HashChain.Bind | crates/aggchain-proof-core/src/bridge/mod.rs:411-440 | two lists with one replay are equal, or one is a cycle back to the start followed by the other, or the positions returned hash distinct pairs to one digest |
| CountingFilter.FilterValues | crates/aggchain-proof-core/src/bridge/mod.rs:443-474 | the counter-map loops return the overflow error exactly when a key is removed more often than a machine word counts, and otherwise exactly the surviving values |
| CountingFilter.SurvivorsByPosition | crates/aggchain-proof-core/src/bridge/mod.rs:457-471 | position j survives if and only if its key occurred earlier at least as often as it was removed; survivors keep their order |
| CountingFilter.KeptBag | crates/aggchain-proof-core/src/bridge/mod.rs:457-471 | conservation per key: the survivors' keys are the present keys minus the removed ones, truncated at zero |
| CountingFilter.FilterTwice | crates/aggchain-proof-core/src/bridge/mod.rs:443-474 | filtering by two lists of removals together is filtering by one and then by the other |
| CountingFilter.RemovalOrderIrrelevant | crates/aggchain-proof-core/src/bridge/mod.rs:448-455 | the order of removals changes neither the result, the overflow verdict included, nor what more removals leave |
| CountingFilter.RemovalsAccountedFor | crates/aggchain-proof-core/src/bridge/mod.rs:448-471 | counts left over plus values dropped equal the number of removals |
| CountingFilter.NoOverflowWhenLengthFits | crates/aggchain-proof-core/src/bridge/mod.rs:452-454 | the overflow error is unreachable for a list whose length fits a machine word |
| CountingFilter.NothingRemoved | crates/aggchain-proof-core/src/bridge/mod.rs:457-471 | with nothing removed every value is kept |
| CountingFilter.JoinedRangesKeepSamePositions | crates/aggchain-proof-core/src/bridge/mod.rs:443-474 | exact condition under which filtering appended lists keeps the positions that filtering each range keeps |
| CountingFilter.RemovedAcrossRanges | crates/aggchain-proof-core/src/bridge/mod.rs:443-474 | a root inserted in one range and removed in the next survives when the ranges are filtered apart and not when they are filtered together |
| CountingFilter.JoinedDistinctRanges | crates/aggchain-proof-core/src/bridge/mod.rs:443-474 | when no value is repeated, the survivors of the appended lists are the appended survivors if and only if that condition holds |
| CountingFilter.JoinedSurvivorsNeed | crates/aggchain-proof-core/src/bridge/mod.rs:443-474 | for any lists, what equal survivors need key by key: no excess of removals on either side meets survivors of the other |
| CountingFilter.ReinsertedAcrossRanges | crates/aggchain-proof-core/src/bridge/mod.rs:443-474 | a root inserted, then removed and inserted again in the next range: equal survivors at other positions |
| CountingFilter.JoinedRanges | crates/aggchain-proof-core/src/bridge/mod.rs:443-474 | under that condition the survivors of the appended lists are the appended survivors |
| Registry.RunKeeps | crates/aggchain-proof-contracts/contracts/GlobalExitRootManagerL2SovereignChain.json:17-26 | every run that the contract's already-set and not-found rules accept keeps the balance of inserted, removed and live keys and keeps the batch filter in step |
| Registry.FilterRefinesRun | crates/aggchain-proof-core/src/bridge/mod.rs:443-474 | for every accepted run the filter returns the live insertions of keys new in the range, and all live insertions exactly when none was set before |
| Registry.FilterIsLive | crates/aggchain-proof-core/src/bridge/mod.rs:118-122 | when only keys of the range are removed, the filter returns the live insertions in insertion order |
| Registry.RunsSeparate | crates/aggchain-proof-contracts/contracts/GlobalExitRootManagerL2SovereignChain.json:17-26 | the lists of two consecutive contract runs filter apart as together if and only if the later run removes no live new insertion of the earlier, and ends with no live value whose key the earlier found set and left unset |
| Registry.ReinsertedOldKeyIsDropped | crates/aggchain-proof-core/src/bridge/mod.rs:443-474 | a root set before the range, removed and inserted again is live, yet the filter drops it |
| Registry.StepsOnSet | crates/aggchain-proof-contracts/contracts/GlobalExitRootManagerL2SovereignChain.json:17-26 | the machine keeps a set: a key is inserted exactly when not set, removed exactly when set, and only that key and that call's list change |
| StaticCall.StaticCallWithContext.Execute | crates/aggchain-proof-core/src/bridge/static_call.rs:49-102 | succeeds exactly with the value returned in a block of the expected hash; each failure has its own exact condition, a hash mismatch carries the hash found and the one expected, and an error carries the stage of the call |
| StaticCall.ReturnedOnBlock | crates/aggchain-proof-core/src/bridge/static_call.rs:49-102 | a value is returned exactly when the client starts, runs the call of that contract from that caller, the block hash is the expected one and the output decodes to the value |
| StaticCall.AnchoredAlike | crates/aggchain-proof-core/src/bridge/static_call.rs:49-102 | calls anchored to one block return one value through any two sketches that answer alike |
| BridgeConstraints.FirstUnproven | crates/aggchain-proof-core/src/bridge/mod.rs:383-387 | finds the first root whose proof fails, or shows that all hold |
| BridgeConstraints.ChainDecided | crates/aggchain-proof-core/src/bridge/mod.rs:151-184 | fetching both values of a chain and replaying it decides its three checks, with the error of the first that fails |
| BridgeConstraints.TwoChainsDecided | crates/aggchain-proof-core/src/bridge/mod.rs:187-282 | two chains of one contract are decided in order: inserted before removed, claimed before unset |
| BridgeConstraints.AddressDecided | crates/aggchain-proof-core/src/bridge/mod.rs:312-329 | the bridge address is the one stored in the GER contract at the new block, or its call fails first |
| BridgeConstraints.LerDecided | crates/aggchain-proof-core/src/bridge/mod.rs:285-309 | the exit root check fails on the call or on a mismatch, in that order |
| BridgeConstraints.VerifyConstrainedGlobalIndices | crates/aggchain-proof-core/src/bridge/mod.rs:333-355 | decides that the claims that were not unset have the committed value |
| BridgeConstraints.RemainingClaimsByPosition | crates/aggchain-proof-core/src/bridge/mod.rs:333-355 | the claims under the commitment are those at exactly the positions whose global index was claimed before as often as it is unset, in order |
| BridgeConstraints.VerifyInsertedGers | crates/aggchain-proof-core/src/bridge/mod.rs:358-398 | decides that the roots that were not removed are the proven ones, in order, and reports the first without a valid proof |
| BridgeConstraints.RemainingGersByPosition | crates/aggchain-proof-core/src/bridge/mod.rs:358-368 | the roots compared are those at exactly the positions whose digest was inserted before as often as it is removed, in order |
| BridgeConstraints.Verify | crates/aggchain-proof-core/src/bridge/mod.rs:401-408 | returns the verdict of the twenty checks in the code's order: success when all pass, otherwise the error of the first that fails, with its payload |
| BridgeConstraints.OneVerdict | crates/aggchain-proof-core/src/bridge/mod.rs:401-408 | the verdict is unique, and is success if and only if every check passes |
| BridgeConstraints.ReadOnChain | crates/aggchain-proof-core/src/bridge/mod.rs:127-329 | which contract and function each of the ten values is read from, through which sketch and on which block |
| BridgeConstraints.TwentyChecks | crates/aggchain-proof-core/src/bridge/mod.rs:187-408 | the order of the twenty checks, one by one |
| BridgeConstraints.ErrorSays | crates/aggchain-proof-core/src/bridge/mod.rs:39-102 | the error of a rejected input is true of it: each variant with the values it carries, read from the chain and the witness |
| BridgeTheorems.AcceptableMeans | crates/aggchain-proof-core/src/bridge/mod.rs:187-408 | acceptance is four replayed chains, exit root, commitment, root list and root proofs; the calls are implied |
| BridgeTheorems.SameChainValues | crates/aggchain-proof-core/src/bridge/mod.rs:151-184 | accepted inputs about the same two blocks read the same values of every chain, whatever sketches and caller each brings |
| BridgeTheorems.ChainEvidence | crates/aggchain-proof-core/src/bridge/mod.rs:187-282 | for each of the four chains, evidence relating the lists of two accepted inputs anchored to the same two block hashes |
| BridgeTheorems.AcceptedGersAgree | crates/aggchain-proof-core/src/bridge/mod.rs:358-380 | two accepted inputs anchored to the same blocks whose root chains show neither cycle nor collision keep the same roots |
| BridgeTheorems.AcceptedClaimsAgree | crates/aggchain-proof-core/src/bridge/mod.rs:230-355 | two accepted inputs anchored to the same blocks have one exit root, and without cycle or collision the same claims and the same commitment |
| BridgeTheorems.SharedBlockIsAdjacent | crates/aggchain-proof-core/src/bridge/mod.rs:151-184 | two accepted inputs that share a block hash, contracts and L1 root are adjacent: the second starts with the chain values with which the first ends, though their sketches of the block differ |
| BridgeTheorems.JoinedChainReplays | crates/aggchain-proof-core/src/bridge/mod.rs:187-282 | the chains of two adjacent ranges always replay as one |
| BridgeTheorems.JoinAcceptableIff | crates/aggchain-proof-core/src/bridge/mod.rs:401-408 | two accepted adjacent inputs join to an accepted one if and only if counting does not overflow and filtering commutes with appending |
| BridgeTheorems.AdjacentRangesCompose | crates/aggchain-proof-core/src/bridge/mod.rs:333-408 | accepted adjacent ranges whose removals do not interfere are accepted as one range |
| BridgeTheorems.JoinedRootsSeparate | crates/aggchain-proof-core/src/bridge/mod.rs:358-380 | when no root is inserted twice in two accepted adjacent ranges, they are accepted as one only if their root insertions and removals do not interfere |
| BridgeTheorems.RecordedRangesAreIndependent | crates/aggchain-proof-core/src/bridge/mod.rs:443-474 | two ranges recorded from consecutive runs of both contracts satisfy the condition of composition if and only if their calls do not interfere |
| BridgeTheorems.RunsCompose | crates/aggchain-proof-core/src/bridge/mod.rs:401-408 | the same for a run of ranges of any length |
| BridgeTheorems.AcceptedGersAreLive | crates/aggchain-proof-core/src/bridge/mod.rs:187-227 | against any run of the GER contract recorded by the chains, the proven roots of an accepted input are the live insertions of roots not set before the range, which are all the live ones exactly when none was set before; or a cycle or collision is exhibited |
| BridgeTheorems.AcceptedClaimsAreLive | crates/aggchain-proof-core/src/bridge/mod.rs:230-355 | against any run of the bridge contract, an accepted input commits to the live claims of indices not set before the range, which are all the live claims exactly when no live claim is of an index set before; or a cycle or collision is exhibited |
| Bn254.ToHashBn254 | crates/aggchain-proof-core/src/full_execution_proof.rs:59-75 | Horner steps in the field and the exact-length copy return the base-2^31 number in 32 big-endian bytes, or panic when word 0 is below 2^23 |
| Bn254.NoReduction | crates/aggchain-proof-core/src/full_execution_proof.rs:62-68 | no half of a Horner step reaches the field prime |
| Bn254.PackingIsExact | crates/aggchain-proof-core/src/full_execution_proof.rs:59-75 | the value is below 2^248, returns exactly for a first word of at least 2^23, has a zero top byte and decodes to the eight words |
| Bn254.ZeroKeyPanics | crates/aggchain-proof-core/src/full_execution_proof.rs:70-75 | the key of eight zero words has no hash |
| Bn254.PackingIsInjective | crates/aggchain-proof-core/src/full_execution_proof.rs:59-75 | distinct digests have distinct scalars, and distinct hashes when both have one |
| Encodings.EncodedFields | crates/aggchain-proof-core/src/full_execution_proof.rs:110-121 | each public value stands in its own word; the block number and the address are left-padded with zeros |
| Encodings.DecodeEncoded | crates/proposer-service/src/lib.rs:204-206 | decoding undoes encoding, so the seven-word encoding is injective |
| Encodings.EncodeDecoded | crates/proposer-service/src/lib.rs:204-206 | encoding undoes decoding if and only if the bytes are canonical |
| Encodings.TrailingByteIgnored | crates/proposer-service/src/lib.rs:204-206 | an encoding with one more byte decodes to the same values, whose encoding it is not |
| Encodings.UnpackPacked | crates/aggchain-proof-core/src/full_execution_proof.rs:137-185 | the 213 packed bytes give back all eight parameters |
| Encodings.PackedFields | crates/aggchain-proof-core/src/full_execution_proof.rs:137-185 | each parameter at its offset in the packed bytes, and the flag as one byte |
| Encodings.PackedInjective | crates/aggchain-proof-core/src/full_execution_proof.rs:183-190 | the packed encoding is injective |
| Encodings.SelectorDecodes | crates/aggchain-proof-service/src/custom_chain_data/mod.rs:14-22 | the selector is program and type side by side and reads back as them |
| Encodings.CustomChainDataFields | crates/aggchain-proof-service/src/custom_chain_data/mod.rs:28-43 | the 96 bytes hold the selector left-aligned, the output root and the block number |
| Encodings.ComputedCustomChainData | crates/aggchain-proof-service/src/custom_chain_data/mod.rs:25-43 | the bytes sent start with program 7 and type 1, then the root, then the block number in the last eight bytes |
| Encodings.RepackAgrees | crates/aggchain-proof-service/src/custom_chain_data/mod.rs:36-43 | repacking from custom chain data gives the same bytes if and only if truncation to 32 bits lost nothing |
| FullExecutionProof.Verify | crates/aggchain-proof-core/src/full_execution_proof.rs:201-285 | passes exactly when the sequencer signed the values, or the head is in the L1 tree and the proof holds; a failed recovery, another signer and a wrong head are told apart, and only a proof that does not hold panics |
| FullExecutionProof.VerifiedExactly | crates/aggchain-proof-core/src/full_execution_proof.rs:201-285 | passes exactly when the sequencer signed the hash of the SHA-256 of the public values, the exit root and the exit commitment, in this order; or the head is the block hash of a leaf under the L1 root and a proof attests that SHA-256 |
| FullExecutionProof.SignerDecides | crates/aggchain-proof-core/src/full_execution_proof.rs:207-240 | in signature mode the address recovered from that hash decides between success, a failed recovery and another signer |
| Encodings.EndBlockTruncated | crates/aggchain-proof-builder/src/lib.rs:322 | with end block 2^32 the packed parameters hold block 0 and the repacked ones 2^32 |
| FullExecutionProof.VerifyL1Head | crates/aggchain-proof-core/src/full_execution_proof.rs:262-285 | succeeds exactly when the head is the block hash of a leaf proven to the L1 info root; a different block hash is reported before a bad proof |
| FullExecutionProof.EncodingsAgree | crates/aggchain-proof-core/src/full_execution_proof.rs:123-190 | packed parameters and public values, each decoded, say the same about roots, block, keys and sequencer |
| FullExecutionProof.ParamsBindInputs | crates/aggchain-proof-core/src/full_execution_proof.rs:151-190 | equal packed parameters mean equal roots, block number, keys, sequencer and mode |
| AggchainProof.VerifyAggchainInputs | crates/aggchain-proof-core/src/proof.rs:33-74 | public values are committed exactly when the proof or signature, every bridge check and the key packing hold; otherwise the first error, and a panic exactly when the proof does not hold or only the key packing fails |
| AggchainProof.CommittedValuesMean | crates/aggchain-proof-core/src/proof.rs:49-74 | what the values committed by the guest say: the transition is vouched for under them, four chains absorbed the witness lists between the two blocks, the exit root is the bridge's, the commitment covers the remaining claims, the remaining roots are proven to the committed L1 root, and the parameters hash unpacks to the transition |
| AggchainProof.AcceptedExactly | crates/aggchain-proof-core/src/proof.rs:62-74 | the bridge checks pass exactly when, written out, the chains advanced by the lists of the witness, removals can be counted, the commitment covers the remaining claims, and the remaining roots are those of the leaves, each proven to the L1 root |
| AggchainProof.GerAddressReads | crates/aggchain-proof-core/src/bridge/mod.rs:20 | the address of the GER contract as a number |
| AggchainInputs.SortUnstableByPlace | crates/aggchain-proof-types/src/proof.rs:62 | sorts the array in place on (block number, block index) and keeps its contents |
| AggchainInputs.SortedInsertedGers | crates/aggchain-proof-types/src/proof.rs:48-64 | the result is sorted and holds each root exactly as often as the map does in the range |
| AggchainInputs.SortedListSays | crates/aggchain-proof-types/src/proof.rs:48-64 | a list is a sorted list of the range exactly when it ascends by block number and index and holds each root as often as map entries of the range carry its proof, leaf, block and index |
| AggchainInputs.OrderIsDetermined | crates/aggchain-proof-types/src/proof.rs:48-64 | the result is the only possible one if and only if no two different roots of the range claim one place |
| AggchainInputs.TwoRootsAtOnePlace | crates/aggchain-proof-types/src/proof.rs:48-64 | two roots at one place have two sorted lists |
| AggchainInputs.ListsOfAdjacentRanges | crates/aggchain-proof-types/src/proof.rs:48-64 | the list of a range is the list of its first part followed by that of the rest |
| AggchainInputs.ChainsOfAdjacentRanges | crates/aggchain-proof-core/src/bridge/mod.rs:418-420 | so the inserted-root chain of a range is that of its parts in turn |
| ProofBuilder.ValidateOpSuccinctConfigKeys | crates/aggchain-proof-builder/src/lib.rs:422-454 | succeeds exactly when both keys match; a mismatch of the aggregation key is reported first, each with the contract's value and the expected one |
| ProofBuilder.ClaimsByPosition | crates/aggchain-proof-builder/src/lib.rs:307-316 | the claims are the exits at exactly the in-range positions, in request order |
| ProofBuilder.ClaimsOfAdjacentRanges | crates/aggchain-proof-builder/src/lib.rs:307-316 | for exits in block order the claims of a range are those of its parts in turn |
| ProofBuilder.FetchChainData | crates/aggchain-proof-builder/src/lib.rs:245-293 | returns what was fetched, or the first failure in the order of the fetches and of the key checks |
| ProofBuilder.FirstFailureIsFirst | crates/aggchain-proof-builder/src/lib.rs:245-357 | the failure reported is the first along the fetches, key checks and comparison of public values, one by one |
| ProofBuilder.AssembleBridgeWitness | crates/aggchain-proof-builder/src/lib.rs:295-316 | sorted in-range roots, their digests as the raw list, in-range claims, nothing removed or unset |
| ProofBuilder.CheckedFepInputs | crates/aggchain-proof-builder/src/lib.rs:318-367 | the public values as fetched, rejected exactly when the proposer's proof carries others, panicking exactly when they are logged and the key cannot be packed |
| ProofBuilder.RetrieveChainData | crates/aggchain-proof-builder/src/lib.rs:224-417 | writes one assembled witness, with the proof in proof mode, or reports the first failure; it panics exactly when the range start overflows in a checked build, or when nothing else fails, info logging is on and the logged key cannot be packed; a witness that SP1 cannot serialize is reported last |
| ProofBuilder.AssembledSays | crates/aggchain-proof-builder/src/lib.rs:318-391 | every value of the assembled witness by where it was fetched, configured or requested: roots at the last proven and the end block, head, block number, keys, sequencer, signature, sketches |
| ProofBuilder.AssembledListsSay | crates/aggchain-proof-builder/src/lib.rs:295-316 | the lists of the assembled witness by the entries of the request in the blocks after the last proven one |
| ProofBuilder.AssembledWitnessAccepted | crates/aggchain-proof-builder/src/lib.rs:369-389 | the guest's bridge checks accept the assembled witness if and only if the chain agrees with the request |
| ProofBuilder.AssembledWitnessCommitted | crates/aggchain-proof-builder/src/lib.rs:319-391 | end to end: the guest commits values for the assembled witness if and only if the chain agrees with the request, the sequencer signed or the proof holds with its L1 head proven, and word 0 of the key is at least 2^23 |
| ProofBuilder.AssembledRangesCompose | crates/aggchain-proof-builder/src/lib.rs:379-388 | the join of accepted witnesses assembled for one range and the next is accepted, provided that both are under one L1 root and one bridge address and the two sketches fetched of the block between them answer alike |
| ProofBuilder.WholeRangeIsJoin | crates/aggchain-proof-builder/src/lib.rs:295-389 | for a request divided in two, with exits in block order and no ties, the bridge input assembled for the whole is the join of those assembled for the parts |
| ProofBuilder.WholeRangeAccepted | crates/aggchain-proof-builder/src/lib.rs:369-389 | so, under the same provisos, the witness assembled for the whole range is accepted if those assembled for its parts are |
| ProofBuilder.ProposerBytesAreHashed | crates/aggchain-proof-builder/src/lib.rs:337-357 | the guest hashes the proposer's bytes if and only if they are canonical, and their block number is the end block modulo 2^32 |
| ProofBuilder.CustomChainDataAgrees | crates/aggchain-proof-builder/src/lib.rs:319-391 | custom chain data reproduces the packed parameters if and only if the end block is below 2^32 |
| ContextMap.RenderInjective | crates/aggkit-prover-types/src/conversion/v1/context.rs:40-87 | no two entries share a key, whatever the names of the roots |
| ContextMap.Context | crates/aggkit-prover-types/src/conversion/v1/context.rs:37-90 | one entry per field, three per root and three per exit, none overwritten and nothing else |
| ContextMap.ContentRecovered | crates/aggkit-prover-types/src/conversion/v1/context.rs:40-87 | each number is recovered from its big-endian bytes and each hash as it is |
| ContextMap.RequestEntries | crates/aggkit-prover-types/src/conversion/v1/context.rs:40-43 | the block numbers and the root under their own names, numbers in eight bytes |
| ContextMap.LeafEntries | crates/aggkit-prover-types/src/conversion/v1/context.rs:44-46 | the index and the two roots of the L1 leaf under their own names |
| ContextMap.InnerLeafEntries | crates/aggkit-prover-types/src/conversion/v1/context.rs:47-49 | the exit root, block hash and timestamp of the L1 leaf under their own names |
| ContextMap.RootEntries | crates/aggkit-prover-types/src/conversion/v1/context.rs:52-65 | block number, block index and leaf index of a root under its name |
| ContextMap.ExitEntries | crates/aggkit-prover-types/src/conversion/v1/context.rs:66-87 | block number, hash and global index of an exit under its position in decimal |
| ContextMap.LittleEndianReversed | crates/aggkit-prover-types/src/conversion/v1/context.rs:78-84 | little-endian bytes read backwards are the big-endian bytes |
| ContextMap.LowPartFirst | crates/aggkit-prover-types/src/conversion/v1/context.rs:78-84 | in little-endian bytes the low part of a number comes first |
| ContextMap.RpcKeysAreFresh | crates/aggkit-prover/src/rpc.rs:120-135 | the three keys added by the RPC layer are new and distinct |
| RequestId.Deserialize | crates/proposer-client/src/lib.rs:78-95 | filling the buffer's tail gives the same id as reading the text as bytes first and as a number second |
| RequestId.ParsePrinted | crates/proposer-client/src/lib.rs:64-85 | parsing the printed form of any id gives it back |
| RequestId.PrintsLowerCase | crates/proposer-client/src/lib.rs:64-68 | the printed form is 64 lower-case hexadecimal digits, without 0x |
| RequestId.ParsePrefixed | crates/proposer-client/src/lib.rs:84-85 | so does parsing the printed form after 0x |
| RequestId.ReadAsBytesExactly | crates/proposer-client/src/lib.rs:84-85 | a text is read as bytes exactly when it is 64 hexadecimal digits of either case, after 0x or not |
| Text.HexValues | crates/proposer-client/src/lib.rs:84-85 | the value of a hexadecimal digit of either case |
| Text.DecodedByte | crates/proposer-client/src/lib.rs:84-85 | two digits make a byte, the high nibble first |
| Text.ParsesExactly | crates/proposer-client/src/lib.rs:86 | digits, with or without a plus sign, read as a number exactly when it is below 2^64 |
| Text.OnlyDigitsParse | crates/proposer-client/src/lib.rs:86 | no other text reads as a number |
| RequestId.RejectedExactly | crates/proposer-client/src/lib.rs:84-93 | a text is rejected exactly when it is neither bytes nor a number, and a number is stored in the last eight bytes |
| RequestId.NumbersParse | crates/proposer-client/src/lib.rs:84-90 | exact condition under which a text that reads as a number gets that number's id |
| RequestId.PaddedTenIsSixteen | crates/proposer-client/src/lib.rs:84-90 | ten written with 64 digits is given the id of sixteen |
| RequestId.DecimalNumberRoundTrip | crates/proposer-client/src/mock_grpc_prover.rs:46-54 | the decimal form of any u64 gives 24 zero bytes and its own eight, from which the mock prover recovers its two's-complement value |

## Left out

- SP1 proving, EVM execution, keccak and SHA-256, signature recovery, Merkle verification, leaf and claim commitments: outside code, fields of `Libraries`.
- RetrieveChainData: the panic that `sp1_fast` catches becomes `Other`; which inputs cause it is a parameter, and the report inside `Other` is dropped.
- AbiDecode: the decoder is outside code; it is modelled as one that reads each field from its own bytes and ignores padding and trailing bytes, so the theorems also cover stricter decoders.
- SortUnstableByPlace: the standard library's algorithm is not reproduced; an in-place insertion sort stands for it, and `OrderIsDetermined` speaks of every sorted result.
- VerifyAggchainInputs: a proof that does not hold stops the guest; this and the key-packing panic are one outcome, `Panicked`, outside the error type.
- Selector: the shift and the or of two 16-bit halves are written as program times 65536 plus type.
- FetchChainData: each contract or node answer is a value, so a client that answers the same question differently at different times is not modelled.
- BridgeConstraintsError source chains and message text: only the variants, their fields and the order in which they arise.
- SharesBlock: that a block decides what a call returns, and that both ranges end with one bridge address, are hypotheses about the EVM and the contracts, which are outside code.
- SP1Stdin: outside code, modelled as a class of two append-only lists, one of witnesses and one of proofs with their keys.
- Debug assertions of the request id code: they check what the construction already gives.
- Network clients, gRPC servers, executors, configuration, log output, generated conversions: plumbing without list, hash or encoding logic.
- FullExecutionProof.Verify: the guest build; outside the guest its branch without a signature is unreachable.
- The builder's constructor: it makes the key check of every request once more, and compares one key hash.
