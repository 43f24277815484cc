/** The host: fetches chain data for a request and assembles the witness that the guest verifies. */
module ProofBuilder {
  import opened Results
  import opened Bytes
  import opened Foreign
  import opened HashChain
  import opened CountingFilter
  import opened StaticCall
  import opened BridgeConstraints
  import opened BridgeTheorems
  import opened AggchainInputs
  import opened Bn254
  import opened Encodings
  import opened FullExecutionProof
  import opened AggchainProof

  /** Error of a contract or node request, only ever passed on. */
  type ContractsError(==, !new)

  /** A compressed SP1 proof, only ever passed on. */
  type Sp1Proof(==, !new)

  datatype VerifyingKey = VerifyingKey(hashBabyBear: BabyBearDigest, bytes32: Digest)

  datatype L2Output = L2Output(stateRoot: Digest, withdrawalStorageRoot: Digest, latestBlockHash: Digest)

  datatype OpSuccinctConfig =
    OpSuccinctConfig(aggregationVkeyHash: Digest, rangeVkeyCommitment: Digest, rollupConfigHash: Digest)

  /** The answers of the contracts and nodes. */
  datatype ContractsClient = ContractsClient(
    localExitRoot: U64 -> Result<Digest, ContractsError>,
    outputAtBlock: U64 -> Result<L2Output, ContractsError>,
    opSuccinctConfig: Result<OpSuccinctConfig, ContractsError>,
    prevBlockSketch: U64 -> Result<EvmSketch, ContractsError>,
    newBlockSketch: U64 -> Result<EvmSketch, ContractsError>,
    trustedSequencer: Result<Address, ContractsError>
  )

  datatype FepVerification =
    | Proof(aggregationProof: Sp1Proof, publicValues: PublicValues)
    | Optimistic(signature: Signature)

  datatype BuilderRequest =
    BuilderRequest(fepVerification: FepVerification, endBlock: U64, inputs: AggchainProofInputs)

  /** What the builder was configured with. */
  datatype Setup = Setup(
    networkId: U32,
    aggregationVkey: VerifyingKey,
    rangeVkeyCommitment: Digest,       // checked against the contract
    elfRangeVkeyCommitment: Digest,    // written to the public values
    staticCallCaller: Address,
    overflowChecks: bool,              // whether the build stops on arithmetic overflow
    logsInfo: bool                     // whether arguments of info-level log lines are evaluated
  )

  datatype BuilderError =
    | L2ChainDataRetrievalError(l2: ContractsError)
    | L1ChainDataRetrievalError(l1: ContractsError)
    | UnableToFetchTrustedSequencerAddress(sequencer: ContractsError)
    | MismatchAggregationVkeyHash(gotHash: Digest, expectedHash: Digest)
    | MismatchRangeVkeyCommitment(gotRange: Digest, expectedRange: Digest)
    | Other
    | MismatchAggregationProofPublicValues(expectedByContract: PublicValues, expectedByVerifier: PublicValues)

  /** The input stream of the guest. */
  class SP1Stdin {
    var buffer: seq<AggchainProofWitness>
    var proofs: seq<(Sp1Proof, VerifyingKey)>

    constructor ()
      ensures buffer == [] && proofs == []
    {
      buffer, proofs := [], [];
    }

    method Write(w: AggchainProofWitness)
      modifies this`buffer
      ensures buffer == old(buffer) + [w]
    {
      buffer := buffer + [w];
    }

    method WriteProof(proof: Sp1Proof, vkey: VerifyingKey)
      modifies this`proofs
      ensures proofs == old(proofs) + [(proof, vkey)]
    {
      proofs := proofs + [(proof, vkey)];
    }
  }

  datatype AggchainProverInputs = AggchainProverInputs(outputRoot: Digest, stdin: SP1Stdin)

  /** The blocks after the last proven one; without overflow checks the successor of the last u64 is 0. */
  function NewBlocks(request: BuilderRequest): BlockRange {
    BlockRange((request.inputs.lastProvenBlock + 1) % TWO64, request.endBlock)
  }

  function ValidateOpSuccinctConfigKeys(config: OpSuccinctConfig, vkey: VerifyingKey, rangeVkeyCommitment: Digest)
    : (r: Result<(), BuilderError>)
    ensures r.Ok? <==> config.aggregationVkeyHash == vkey.bytes32 && config.rangeVkeyCommitment == rangeVkeyCommitment
    ensures config.aggregationVkeyHash != vkey.bytes32
       <==> r.Err? && r.error == MismatchAggregationVkeyHash(config.aggregationVkeyHash, vkey.bytes32)
    ensures r.Err? && config.aggregationVkeyHash == vkey.bytes32
        ==> r.error == MismatchRangeVkeyCommitment(config.rangeVkeyCommitment, rangeVkeyCommitment)
  {
    if config.aggregationVkeyHash != vkey.bytes32 then
      Err(MismatchAggregationVkeyHash(config.aggregationVkeyHash, vkey.bytes32))
    else if config.rangeVkeyCommitment != rangeVkeyCommitment then
      Err(MismatchRangeVkeyCommitment(config.rangeVkeyCommitment, rangeVkeyCommitment))
    else Ok(())
  }

  /** The exits of the range, in request order. */
  function ClaimsInRange(exits: seq<ExitWithBlockNumber>, range: BlockRange): seq<GlobalIndexWithLeafHash> {
    if exits == [] then []
    else
      ClaimsInRange(exits[..|exits| - 1], range) + ClaimsOf(exits[|exits| - 1], range)
  }

  function ClaimsOf(exit: ExitWithBlockNumber, range: BlockRange): seq<GlobalIndexWithLeafHash> {
    if range.Contains(exit.blockNumber) then [GlobalIndexWithLeafHash(exit.globalIndex, exit.bridgeExitHash)] else []
  }

  /** The claims are the exits at the in-range positions, each once and in request order. */
  lemma {:induction false} ClaimsByPosition(exits: seq<ExitWithBlockNumber>, range: BlockRange)
    returns (positions: seq<nat>)
    ensures |positions| == |ClaimsInRange(exits, range)|
    ensures forall a, b :: 0 <= a < b < |positions| ==> positions[a] < positions[b]
    ensures forall a :: 0 <= a < |positions| ==> positions[a] < |exits|
    ensures forall a :: 0 <= a < |positions|
                    ==> var claim, exit := ClaimsInRange(exits, range)[a], exits[positions[a]];
                        claim.globalIndex == exit.globalIndex && claim.bridgeExitHash == exit.bridgeExitHash
    ensures forall j :: 0 <= j < |exits| ==> (j in positions <==> range.first <= exits[j].blockNumber <= range.last)
  {
    if exits == [] {
      positions := [];
    } else {
      var n := |exits| - 1;
      var front := ClaimsByPosition(exits[..n], range);
      positions := front + (if range.Contains(exits[n].blockNumber) then [n] else []);
      assert n !in front;
    }
  }

  ghost predicate ExitsInOrder(exits: seq<ExitWithBlockNumber>) {
    forall i, j :: 0 <= i < j < |exits| ==> exits[i].blockNumber <= exits[j].blockNumber
  }

  /** When the exits are listed in block order, the claims of a range are those of its two halves in turn. */
  lemma {:induction false} ClaimsOfAdjacentRanges(exits: seq<ExitWithBlockNumber>, a: U64, m: U64, b: U64)
    requires a <= m <= b && m + 1 < TWO64
    requires ExitsInOrder(exits)
    ensures ClaimsInRange(exits, BlockRange(a + 1, b))
         == ClaimsInRange(exits, BlockRange(a + 1, m)) + ClaimsInRange(exits, BlockRange(m + 1, b))
  {
    if exits != [] {
      var front, last := exits[..|exits| - 1], exits[|exits| - 1];
      ClaimsOfAdjacentRanges(front, a, m, b);
      if last.blockNumber <= m {
        NoneInRange(front, BlockRange(m + 1, b));
      }
      LastClaim(ClaimsInRange(front, BlockRange(a + 1, m)), ClaimsInRange(front, BlockRange(m + 1, b)),
                if last.blockNumber <= m then ClaimsOf(last, BlockRange(a + 1, m)) else [],
                if last.blockNumber <= m then [] else ClaimsOf(last, BlockRange(m + 1, b)));
    }
  }

  lemma LastClaim<T>(left: seq<T>, right: seq<T>, atLeft: seq<T>, atRight: seq<T>)
    requires right == [] || atLeft == []
    ensures (left + right) + (atLeft + atRight) == (left + atLeft) + (right + atRight)
  {
  }

  lemma {:induction false} NoneInRange(exits: seq<ExitWithBlockNumber>, range: BlockRange)
    requires forall i :: 0 <= i < |exits| ==> exits[i].blockNumber < range.first
    ensures ClaimsInRange(exits, range) == []
  {
    if exits != [] {
      NoneInRange(exits[..|exits| - 1], range);
    }
  }

  // ----- What a request needs, in the order it is fetched and checked -----

  predicate Fetched(client: ContractsClient, request: BuilderRequest) {
    && client.localExitRoot(request.inputs.lastProvenBlock).Ok? && client.localExitRoot(request.endBlock).Ok?
    && client.outputAtBlock(request.inputs.lastProvenBlock).Ok? && client.outputAtBlock(request.endBlock).Ok?
    && client.opSuccinctConfig.Ok?
    && client.prevBlockSketch(request.inputs.lastProvenBlock).Ok? && client.newBlockSketch(request.endBlock).Ok?
    && client.trustedSequencer.Ok?
  }

  /** The public values of the request, as the contracts have them. */
  function FepFor(setup: Setup, client: ContractsClient, request: BuilderRequest): FepInputs
    requires Fetched(client, request)
  {
    var pre := client.outputAtBlock(request.inputs.lastProvenBlock).value;
    var claim := client.outputAtBlock(request.endBlock).value;
    FepInputs(
      request.inputs.l1InfoTreeLeaf.inner.blockHash, request.endBlock % TWO32,
      client.opSuccinctConfig.value.rollupConfigHash,
      pre.stateRoot, pre.withdrawalStorageRoot, pre.latestBlockHash,
      claim.stateRoot, claim.withdrawalStorageRoot, claim.latestBlockHash,
      setup.aggregationVkey.hashBabyBear, setup.elfRangeVkeyCommitment, client.trustedSequencer.value,
      if request.fepVerification.Optimistic? then Some(request.fepVerification.signature) else None,
      request.inputs.l1InfoTreeLeaf, request.inputs.l1InfoTreeMerkleProof)
  }

  function OnL2<T>(r: Result<T, ContractsError>): Option<BuilderError> {
    if r.Err? then Some(L2ChainDataRetrievalError(r.error)) else None
  }

  function OnConfig(setup: Setup, r: Result<OpSuccinctConfig, ContractsError>): Option<BuilderError> {
    match r
    case Err(e) => Some(L1ChainDataRetrievalError(e))
    case Ok(config) =>
      var keys := ValidateOpSuccinctConfigKeys(config, setup.aggregationVkey, setup.rangeVkeyCommitment);
      if keys.Err? then Some(keys.error) else None
  }

  function OnPublicValues(setup: Setup, client: ContractsClient, request: BuilderRequest): Option<BuilderError> {
    if Fetched(client, request) && request.fepVerification.Proof? then
      var expected := PublicValuesOf(FepFor(setup, client, request));
      if request.fepVerification.publicValues != expected
      then Some(MismatchAggregationProofPublicValues(expected, request.fepVerification.publicValues)) else None
    else None
  }

  /** The possible failures of the fetches, in order. */
  function FetchFailures(setup: Setup, client: ContractsClient, request: BuilderRequest): seq<Option<BuilderError>> {
    [OnL2(client.localExitRoot(request.inputs.lastProvenBlock)),
     OnL2(client.localExitRoot(request.endBlock)),
     OnL2(client.outputAtBlock(request.inputs.lastProvenBlock)),
     OnL2(client.outputAtBlock(request.endBlock)),
     OnConfig(setup, client.opSuccinctConfig),
     OnL2(client.prevBlockSketch(request.inputs.lastProvenBlock)),
     OnL2(client.newBlockSketch(request.endBlock)),
     if client.trustedSequencer.Err?
     then Some(UnableToFetchTrustedSequencerAddress(client.trustedSequencer.error)) else None]
  }

  /** The possible failures of a request, in the order in which they are noticed. */
  function Failures(setup: Setup, client: ContractsClient, request: BuilderRequest): seq<Option<BuilderError>> {
    FetchFailures(setup, client, request) + [OnPublicValues(setup, client, request)]
  }

  ghost predicate IsFirst(failures: seq<Option<BuilderError>>, e: BuilderError) {
    exists i :: 0 <= i < |failures| && failures[i] == Some(e) && forall j :: 0 <= j < i ==> failures[j].None?
  }

  ghost predicate NoFailure(failures: seq<Option<BuilderError>>) {
    forall i :: 0 <= i < |failures| ==> failures[i].None?
  }

  /** The first failure of a request, fetch by fetch and check by check. */
  function FirstFailure(setup: Setup, client: ContractsClient, request: BuilderRequest): Option<BuilderError> {
    var last, end := request.inputs.lastProvenBlock, request.endBlock;
    if client.localExitRoot(last).Err? then Some(L2ChainDataRetrievalError(client.localExitRoot(last).error))
    else if client.localExitRoot(end).Err? then Some(L2ChainDataRetrievalError(client.localExitRoot(end).error))
    else if client.outputAtBlock(last).Err? then Some(L2ChainDataRetrievalError(client.outputAtBlock(last).error))
    else if client.outputAtBlock(end).Err? then Some(L2ChainDataRetrievalError(client.outputAtBlock(end).error))
    else if client.opSuccinctConfig.Err? then Some(L1ChainDataRetrievalError(client.opSuccinctConfig.error))
    else
      var config, pre, claim := client.opSuccinctConfig.value, client.outputAtBlock(last).value,
                                client.outputAtBlock(end).value;
      if config.aggregationVkeyHash != setup.aggregationVkey.bytes32 then
        Some(MismatchAggregationVkeyHash(config.aggregationVkeyHash, setup.aggregationVkey.bytes32))
      else if config.rangeVkeyCommitment != setup.rangeVkeyCommitment then
        Some(MismatchRangeVkeyCommitment(config.rangeVkeyCommitment, setup.rangeVkeyCommitment))
      else if client.prevBlockSketch(last).Err? then
        Some(L2ChainDataRetrievalError(client.prevBlockSketch(last).error))
      else if client.newBlockSketch(end).Err? then Some(L2ChainDataRetrievalError(client.newBlockSketch(end).error))
      else if client.trustedSequencer.Err? then
        Some(UnableToFetchTrustedSequencerAddress(client.trustedSequencer.error))
      else if request.fepVerification.Optimistic? then None
      else
        var expected := PublicValues(request.inputs.l1InfoTreeLeaf.inner.blockHash, pre.stateRoot, claim.stateRoot,
                                     end % TWO32, config.rollupConfigHash, setup.elfRangeVkeyCommitment,
                                     client.trustedSequencer.value);
        if request.fepVerification.publicValues == expected then None
        else Some(MismatchAggregationProofPublicValues(expected, request.fepVerification.publicValues))
  }

  /** The list of possible failures and the chain of conditions name the same first failure. */
  lemma FirstFailureIsFirst(setup: Setup, client: ContractsClient, request: BuilderRequest, e: BuilderError)
    ensures IsFirst(Failures(setup, client, request), e) <==> FirstFailure(setup, client, request) == Some(e)
    ensures NoFailure(Failures(setup, client, request)) <==> FirstFailure(setup, client, request) == None
  {
    var f := Failures(setup, client, request);
    var n := if f[0].Some? then 0 else if f[1].Some? then 1 else if f[2].Some? then 2
             else if f[3].Some? then 3 else if f[4].Some? then 4 else if f[5].Some? then 5
             else if f[6].Some? then 6 else if f[7].Some? then 7 else 8;
    FailsAt(setup, client, request, f, n);
    OneFirst(f, n, e);
  }

  lemma FailsAt(setup: Setup, client: ContractsClient, request: BuilderRequest, f: seq<Option<BuilderError>>, n: nat)
    requires f == Failures(setup, client, request) && n < |f|
    requires forall j :: 0 <= j < n ==> f[j].None?
    requires n < 8 ==> f[n].Some?
    ensures FirstFailure(setup, client, request) == f[n]
  {
    if n > 0 { assert f[0].None?; }
    if n > 1 { assert f[1].None?; }
    if n > 2 { assert f[2].None?; }
    if n > 3 { assert f[3].None?; }
    if n > 4 { assert f[4].None?; }
    if n > 5 { assert f[5].None?; }
    if n > 6 { assert f[6].None?; }
    if n > 7 { assert f[7].None?; }
  }

  lemma OneFirst(f: seq<Option<BuilderError>>, n: nat, e: BuilderError)
    requires n < |f| && (forall j :: 0 <= j < n ==> f[j].None?) && (f[n].None? ==> n == |f| - 1)
    ensures IsFirst(f, e) <==> f[n] == Some(e)
    ensures NoFailure(f) <==> f[n].None?
  {
  }

  lemma FirstStaysFirst(failures: seq<Option<BuilderError>>, more: seq<Option<BuilderError>>, e: BuilderError)
    requires IsFirst(failures, e) || (NoFailure(failures) && IsFirst(more, e))
    ensures IsFirst(failures + more, e)
  {
    var all := failures + more;
    if IsFirst(failures, e) {
      var i :| 0 <= i < |failures| && failures[i] == Some(e) && forall j :: 0 <= j < i ==> failures[j].None?;
      assert all[i] == Some(e);
    } else {
      var i :| 0 <= i < |more| && more[i] == Some(e) && forall j :: 0 <= j < i ==> more[j].None?;
      assert all[|failures| + i] == Some(e);
    }
  }

  /** The lists of a request for some blocks: its roots in order, their digests, and its claims. */
  ghost predicate ListsOf(lib: Libraries, inputs: AggchainProofInputs, range: BlockRange, b: BridgeWitness) {
    && SortedInRange(b.insertedGers, inputs.gerLeaves, range)
    && b.rawInsertedGers == GersOf(lib, b.insertedGers)
    && b.bridgeExitsClaimed == ClaimsInRange(inputs.importedBridgeExits, range)
  }

  /** Nothing is removed or unset. */
  predicate NothingTaken(b: BridgeWitness) {
    b.removedGers == [] && b.globalIndicesUnset == []
  }

  /** The bridge part of a witness: lists as requested, nothing removed or unset. */
  ghost predicate BridgeAssembled(lib: Libraries, setup: Setup, inputs: AggchainProofInputs, newBlocks: BlockRange,
                                  prevSketch: EvmSketch, newSketch: EvmSketch, b: BridgeWitness) {
    && ListsOf(lib, inputs, newBlocks, b) && NothingTaken(b)
    && b.prevL2BlockSketch == prevSketch && b.newL2BlockSketch == newSketch
    && b.callerAddress == setup.staticCallCaller
  }

  /** The witness of a request: chain data as fetched, and the lists of the request. */
  ghost predicate Assembled(lib: Libraries, setup: Setup, client: ContractsClient, request: BuilderRequest,
                            w: AggchainProofWitness) {
    && Fetched(client, request)
    && w.prevLocalExitRoot == client.localExitRoot(request.inputs.lastProvenBlock).value
    && w.newLocalExitRoot == client.localExitRoot(request.endBlock).value
    && w.l1InfoRoot == request.inputs.l1InfoTreeRootHash
    && w.originNetwork == setup.networkId
    && w.fep == FepFor(setup, client, request)
    && w.commitImportedBridgeExits
       == lib.claimsCommitment(ClaimsInRange(request.inputs.importedBridgeExits, NewBlocks(request)))
    && BridgeAssembled(lib, setup, request.inputs, NewBlocks(request),
                       client.prevBlockSketch(request.inputs.lastProvenBlock).value,
                       client.newBlockSketch(request.endBlock).value, w.bridgeWitness)
  }

  /** Every value of an assembled witness, by where it was fetched, configured or requested. */
  lemma AssembledSays(lib: Libraries, setup: Setup, client: ContractsClient, request: BuilderRequest,
                      w: AggchainProofWitness)
    requires Assembled(lib, setup, client, request, w)
    ensures Fetched(client, request)
    ensures client.localExitRoot(request.inputs.lastProvenBlock) == Ok(w.prevLocalExitRoot)
    ensures client.localExitRoot(request.endBlock) == Ok(w.newLocalExitRoot)
    ensures w.l1InfoRoot == request.inputs.l1InfoTreeRootHash && w.originNetwork == setup.networkId
    ensures client.outputAtBlock(request.inputs.lastProvenBlock)
         == Ok(L2Output(w.fep.prevStateRoot, w.fep.prevWithdrawalStorageRoot, w.fep.prevBlockHash))
    ensures client.outputAtBlock(request.endBlock)
         == Ok(L2Output(w.fep.newStateRoot, w.fep.newWithdrawalStorageRoot, w.fep.newBlockHash))
    ensures ComputeClaimRoot(w.fep) == client.outputAtBlock(request.endBlock).value.stateRoot
    ensures w.fep.l1Head == request.inputs.l1InfoTreeLeaf.inner.blockHash
    ensures w.fep.claimBlockNum == request.endBlock % 0x1_0000_0000
    ensures w.fep.rollupConfigHash == client.opSuccinctConfig.value.rollupConfigHash
    ensures w.fep.aggregationVkeyHash == setup.aggregationVkey.hashBabyBear
    ensures w.fep.rangeVkeyCommitment == setup.elfRangeVkeyCommitment
    ensures client.trustedSequencer == Ok(w.fep.trustedSequencer)
    ensures w.fep.signatureOptimisticMode == match request.fepVerification
                                             case Optimistic(signature) => Some(signature)
                                             case Proof(_, _) => None
    ensures w.fep.l1InfoTreeLeaf == request.inputs.l1InfoTreeLeaf
    ensures w.fep.l1HeadInclusionProof == request.inputs.l1InfoTreeMerkleProof
    ensures client.prevBlockSketch(request.inputs.lastProvenBlock) == Ok(w.bridgeWitness.prevL2BlockSketch)
    ensures client.newBlockSketch(request.endBlock) == Ok(w.bridgeWitness.newL2BlockSketch)
    ensures w.bridgeWitness.callerAddress == setup.staticCallCaller
    ensures w.commitImportedBridgeExits == lib.claimsCommitment(w.bridgeWitness.bridgeExitsClaimed)
    ensures w.bridgeWitness.removedGers == [] && w.bridgeWitness.globalIndicesUnset == []
  {
  }

  lemma ListsSay(lib: Libraries, inputs: AggchainProofInputs, range: BlockRange, b: BridgeWitness)
    requires ListsOf(lib, inputs, range, b)
    ensures Ascending(b.insertedGers)
    ensures forall v :: multiset(b.insertedGers)[v] == |EntriesOf(inputs.gerLeaves, range, v)|
    ensures |b.rawInsertedGers| == |b.insertedGers|
    ensures forall i :: 0 <= i < |b.insertedGers|
                    ==> b.rawInsertedGers[i] == lib.leafGer(b.insertedGers[i].l1InfoTreeLeaf)
  {
    SortedListSays(b.insertedGers, inputs.gerLeaves, range);
  }

  /** The lists of an assembled witness, by the entries of the request after the last proven block. */
  lemma AssembledListsSay(lib: Libraries, setup: Setup, client: ContractsClient, request: BuilderRequest,
                          w: AggchainProofWitness, range: BlockRange)
    requires Assembled(lib, setup, client, request, w)
    requires range == BlockRange((request.inputs.lastProvenBlock + 1) % TWO64, request.endBlock)
    ensures var b := w.bridgeWitness;
            && Ascending(b.insertedGers)
            && (forall v :: multiset(b.insertedGers)[v] == |EntriesOf(request.inputs.gerLeaves, range, v)|)
            && |b.rawInsertedGers| == |b.insertedGers|
            && (forall i :: 0 <= i < |b.insertedGers|
                       ==> b.rawInsertedGers[i] == lib.leafGer(b.insertedGers[i].l1InfoTreeLeaf))
            && b.bridgeExitsClaimed == ClaimsInRange(request.inputs.importedBridgeExits, range)
  {
    AssembledLists(lib, setup, client, request, w);
    ListsSay(lib, request.inputs, range, w.bridgeWitness);
  }

  /** The optional proof that accompanies the witness. */
  function ProofsOf(setup: Setup, request: BuilderRequest): seq<(Sp1Proof, VerifyingKey)> {
    if request.fepVerification.Proof? then [(request.fepVerification.aggregationProof, setup.aggregationVkey)] else []
  }

  datatype ChainData = ChainData(
    prevLer: Digest, newLer: Digest, pre: L2Output, claim: L2Output, config: OpSuccinctConfig,
    prevSketch: EvmSketch, newSketch: EvmSketch, sequencer: Address
  )

  /** The ordered fetches of `retrieve_chain_data`, with the check of the contract's keys among them. */
  method FetchChainData(setup: Setup, client: ContractsClient, request: BuilderRequest)
    returns (r: Result<ChainData, BuilderError>)
    ensures r.Err? ==> IsFirst(FetchFailures(setup, client, request), r.error)
    ensures r.Ok? ==> NoFailure(FetchFailures(setup, client, request)) && Fetched(client, request)
    ensures r.Ok? ==> r.value == FetchedData(client, request)
  {
    var last, end := request.inputs.lastProvenBlock, request.endBlock;
    ghost var failures := FetchFailures(setup, client, request);
    var prevLer := client.localExitRoot(last);
    if prevLer.Err? { assert failures[0].Some?; return Err(L2ChainDataRetrievalError(prevLer.error)); }
    var newLer := client.localExitRoot(end);
    if newLer.Err? { assert failures[1].Some?; return Err(L2ChainDataRetrievalError(newLer.error)); }
    var pre := client.outputAtBlock(last);
    if pre.Err? { assert failures[2].Some?; return Err(L2ChainDataRetrievalError(pre.error)); }
    var claim := client.outputAtBlock(end);
    if claim.Err? { assert failures[3].Some?; return Err(L2ChainDataRetrievalError(claim.error)); }
    var config := client.opSuccinctConfig;
    if config.Err? { assert failures[4].Some?; return Err(L1ChainDataRetrievalError(config.error)); }
    var keys := ValidateOpSuccinctConfigKeys(config.value, setup.aggregationVkey, setup.rangeVkeyCommitment);
    if keys.Err? { assert failures[4].Some?; return Err(keys.error); }
    var prevSketch := client.prevBlockSketch(last);
    if prevSketch.Err? { assert failures[5].Some?; return Err(L2ChainDataRetrievalError(prevSketch.error)); }
    var newSketch := client.newBlockSketch(end);
    if newSketch.Err? { assert failures[6].Some?; return Err(L2ChainDataRetrievalError(newSketch.error)); }
    var sequencer := client.trustedSequencer;
    if sequencer.Err? { assert failures[7].Some?; return Err(UnableToFetchTrustedSequencerAddress(sequencer.error)); }
    return Ok(ChainData(prevLer.value, newLer.value, pre.value, claim.value, config.value,
                        prevSketch.value, newSketch.value, sequencer.value));
  }

  function FetchedData(client: ContractsClient, request: BuilderRequest): ChainData
    requires Fetched(client, request)
  {
    var last, end := request.inputs.lastProvenBlock, request.endBlock;
    ChainData(client.localExitRoot(last).value, client.localExitRoot(end).value,
              client.outputAtBlock(last).value, client.outputAtBlock(end).value, client.opSuccinctConfig.value,
              client.prevBlockSketch(last).value, client.newBlockSketch(end).value, client.trustedSequencer.value)
  }

  method AssembleBridgeWitness(lib: Libraries, setup: Setup, inputs: AggchainProofInputs, newBlocks: BlockRange,
                               prevSketch: EvmSketch, newSketch: EvmSketch)
    returns (b: BridgeWitness)
    ensures BridgeAssembled(lib, setup, inputs, newBlocks, prevSketch, newSketch, b)
  {
    var insertedGers := SortedInsertedGers(inputs.gerLeaves, newBlocks);
    var rawInsertedGers := GersOf(lib, insertedGers);
    var bridgeExitsClaimed := ClaimsInRange(inputs.importedBridgeExits, newBlocks);
    return BridgeWitness(insertedGers, rawInsertedGers, [], bridgeExitsClaimed, [], prevSketch, newSketch,
                         setup.staticCallCaller);
  }

  /** The guest's input with the witness and the proof, unless SP1 panics on writing them. */
  method BuildStdin(setup: Setup, request: BuilderRequest, w: AggchainProofWitness,
                    serializes: (AggchainProofWitness, seq<(Sp1Proof, VerifyingKey)>) -> bool)
    returns (r: Option<SP1Stdin>)
    ensures r.Some? <==> serializes(w, ProofsOf(setup, request))
    ensures r.Some? ==> fresh(r.value) && r.value.buffer == [w] && r.value.proofs == ProofsOf(setup, request)
  {
    if !serializes(w, ProofsOf(setup, request)) {
      return None;
    }
    var stdin := new SP1Stdin();
    stdin.Write(w);
    if request.fepVerification.Proof? {
      stdin.WriteProof(request.fepVerification.aggregationProof, setup.aggregationVkey);
    }
    return Some(stdin);
  }

  /** The public values for the guest, checked against those of the proposer's proof, and logged. */
  method CheckedFepInputs(setup: Setup, client: ContractsClient, request: BuilderRequest, data: ChainData)
    returns (r: Run<FepInputs, BuilderError>)
    requires Fetched(client, request) && data == FetchedData(client, request)
    ensures r.Rejected? <==> OnPublicValues(setup, client, request).Some?
    ensures r.Rejected? ==> OnPublicValues(setup, client, request) == Some(r.error)
    ensures r.Panicked? <==> OnPublicValues(setup, client, request).None? && setup.logsInfo
                             && HashBn254(setup.aggregationVkey.hashBabyBear).None?
    ensures r.Done? ==> r.value == FepFor(setup, client, request)
  {
    var inputs := request.inputs;
    var fepInputs := FepInputs(
      inputs.l1InfoTreeLeaf.inner.blockHash, request.endBlock % TWO32, data.config.rollupConfigHash,
      data.pre.stateRoot, data.pre.withdrawalStorageRoot, data.pre.latestBlockHash,
      data.claim.stateRoot, data.claim.withdrawalStorageRoot, data.claim.latestBlockHash,
      setup.aggregationVkey.hashBabyBear, setup.elfRangeVkeyCommitment, data.sequencer, None,
      inputs.l1InfoTreeLeaf, inputs.l1InfoTreeMerkleProof);
    match request.fepVerification {
      case Proof(_, received) =>
        var fromContracts := PublicValuesOf(fepInputs);
        if received != fromContracts {
          return Rejected(MismatchAggregationProofPublicValues(fromContracts, received));
        }
      case Optimistic(signature) =>
        fepInputs := fepInputs.(signatureOptimisticMode := Some(signature));
    }
    // the log line hashes the aggchain parameters
    if setup.logsInfo && AggchainParamsOf(fepInputs).None? {
      return Panicked;
    }
    return Done(fepInputs);
  }

  /**
    `retrieve_chain_data`: the assembled witness on the guest's input, or the first failure. `serializes` says
    which witness and proof SP1 can write to that input; its panic on another is caught, and reported last.
   */
  method RetrieveChainData(lib: Libraries, setup: Setup, client: ContractsClient, request: BuilderRequest,
                           serializes: (AggchainProofWitness, seq<(Sp1Proof, VerifyingKey)>) -> bool)
    returns (r: Run<AggchainProverInputs, BuilderError>)
    ensures r.Panicked?
       <==> || (setup.overflowChecks && request.inputs.lastProvenBlock + 1 == TWO64)
            || (NoFailure(Failures(setup, client, request)) && setup.logsInfo
                && HashBn254(setup.aggregationVkey.hashBabyBear).None?)
    ensures r.Rejected? && r.error != Other ==> IsFirst(Failures(setup, client, request), r.error)
    ensures r.Rejected? && r.error == Other
        ==> && NoFailure(Failures(setup, client, request))
            && exists w :: Assembled(lib, setup, client, request, w) && !serializes(w, ProofsOf(setup, request))
    ensures r.Done? ==> NoFailure(Failures(setup, client, request)) && fresh(r.value.stdin)
    ensures r.Done? ==> |r.value.stdin.buffer| == 1 && Assembled(lib, setup, client, request, r.value.stdin.buffer[0])
    ensures r.Done? ==> r.value.stdin.proofs
                        == match request.fepVerification
                           case Proof(aggregationProof, _) => [(aggregationProof, setup.aggregationVkey)]
                           case Optimistic(_) => []
    ensures r.Done? ==> serializes(r.value.stdin.buffer[0], r.value.stdin.proofs)
    ensures r.Done? ==> client.outputAtBlock(request.endBlock).Ok?
                        && r.value.outputRoot == client.outputAtBlock(request.endBlock).value.stateRoot
  {
    if setup.overflowChecks && request.inputs.lastProvenBlock + 1 == TWO64 {
      return Panicked;
    }
    var newBlocks := BlockRange((request.inputs.lastProvenBlock + 1) % TWO64, request.endBlock);
    ghost var onPublicValues := [OnPublicValues(setup, client, request)];
    var fetched := FetchChainData(setup, client, request);
    if fetched.Err? {
      FirstStaysFirst(FetchFailures(setup, client, request), onPublicValues, fetched.error);
      return Rejected(fetched.error);
    }
    var data, inputs := fetched.value, request.inputs;

    var checked := CheckedFepInputs(setup, client, request, data);
    match checked {
      case Rejected(e) =>
        assert onPublicValues[0] == Some(e);
        FirstStaysFirst(FetchFailures(setup, client, request), onPublicValues, e);
        return Rejected(e);
      case Panicked => return Panicked;
      case Done(_) =>
    }
    var fepInputs := checked.value;

    var bridgeWitness := AssembleBridgeWitness(lib, setup, inputs, newBlocks, data.prevSketch, data.newSketch);
    var w := AggchainProofWitness(
      data.prevLer, data.newLer, inputs.l1InfoTreeRootHash, setup.networkId, fepInputs,
      lib.claimsCommitment(bridgeWitness.bridgeExitsClaimed), bridgeWitness);
    var stdin := BuildStdin(setup, request, w, serializes);
    if stdin.None? {
      return Rejected(Other);
    }
    return Done(AggchainProverInputs(ComputeClaimRoot(fepInputs), stdin.value));
  }

  // ----- Host and guest -----

  /**
    The state of the chain that the host relies on: over the range the inserted-root chain absorbed the
    request's roots in block order, the claim chain its exits in request order, and the chains of removals
    stood still; the exit root is the fetched one; and each root is proven to the L1 root.
   */
  ghost predicate ChainAgrees(lib: Libraries, request: BuilderRequest, w: AggchainProofWitness) {
    var x := BridgeInput(w);
    var claims := ClaimsInRange(request.inputs.importedBridgeExits, NewBlocks(request));
    var gers := w.bridgeWitness.insertedGers;
    && (forall t :: PrevValue(lib, x, t).Some?)
    && NewValue(lib, x, InsertedGER)
       == Some(Replay(lib.combine, PrevValue(lib, x, InsertedGER).value,
                      seq<Digest>(|gers|, i requires 0 <= i < |gers| => lib.leafGer(gers[i].l1InfoTreeLeaf))))
    && NewValue(lib, x, ClaimedGlobalIndex)
       == Some(Replay(lib.combine, PrevValue(lib, x, ClaimedGlobalIndex).value,
                      seq<Digest>(|claims|, i requires 0 <= i < |claims| => lib.exitCommitment(claims[i]))))
    && NewValue(lib, x, RemovedGER) == PrevValue(lib, x, RemovedGER)
    && NewValue(lib, x, UnsetGlobalIndex) == PrevValue(lib, x, UnsetGlobalIndex)
    && ExitRootAt(lib, x) == Some(w.newLocalExitRoot)
    && forall i :: 0 <= i < |gers| ==> ProvenTo(lib, gers, i, w.l1InfoRoot)
  }

  /** With nothing removed or unset, the checks on the filtered lists hold by construction. */
  lemma NothingFiltered(lib: Libraries, x: BridgeConstraintsInput)
    requires x.bridgeWitness.removedGers == [] && x.bridgeWitness.globalIndicesUnset == []
    requires x.bridgeWitness.rawInsertedGers == GersOf(lib, x.bridgeWitness.insertedGers)
    requires x.commitImportedBridgeExits == lib.claimsCommitment(x.bridgeWitness.bridgeExitsClaimed)
    ensures Passes(lib, x, GersCounted) && Passes(lib, x, GersMatch)
    ensures Passes(lib, x, ClaimsCounted) && Passes(lib, x, CommitmentMatches)
  {
    NothingRemoved(x.bridgeWitness.rawInsertedGers, Itself);
    NothingRemoved(x.bridgeWitness.bridgeExitsClaimed, IndexOf);
  }

  /** A chain that absorbs nothing replays exactly when it stands still. */
  lemma EmptyReplay(lib: Libraries, x: BridgeConstraintsInput, t: HashChainType)
    requires Elements(lib, x.bridgeWitness, t) == []
    ensures Passes(lib, x, Replayed(t)) <==> PrevValue(lib, x, t).Some? && NewValue(lib, x, t) == PrevValue(lib, x, t)
  {
  }

  /** The lists that the host assembles: raw roots are those of the proven list, nothing is removed or unset. */
  ghost predicate Plain(lib: Libraries, request: BuilderRequest, b: BridgeWitness) {
    && NothingTaken(b)
    && b.rawInsertedGers == GersOf(lib, b.insertedGers)
    && b.bridgeExitsClaimed == ClaimsInRange(request.inputs.importedBridgeExits, NewBlocks(request))
  }

  lemma AgreeingChainsReplay(lib: Libraries, request: BuilderRequest, w: AggchainProofWitness,
                             x: BridgeConstraintsInput, t: HashChainType)
    requires x == BridgeInput(w) && Plain(lib, request, w.bridgeWitness) && ChainAgrees(lib, request, w)
    ensures Passes(lib, x, Replayed(t))
  {
    var b := w.bridgeWitness;
    DigestsWrittenOut(lib, b.insertedGers, b.bridgeExitsClaimed, b.globalIndicesUnset);
    match t
    case InsertedGER =>
    case RemovedGER => EmptyReplay(lib, x, t);
    case ClaimedGlobalIndex =>
    case UnsetGlobalIndex =>
      assert IndexBytes([]) == [];
      EmptyReplay(lib, x, t);
  }

  lemma ReplayedChainsAgree(lib: Libraries, request: BuilderRequest, w: AggchainProofWitness, x: BridgeConstraintsInput)
    requires x == BridgeInput(w) && Plain(lib, request, w.bridgeWitness)
    requires forall t :: Passes(lib, x, Replayed(t))
    requires Passes(lib, x, ExitRootMatches) && Passes(lib, x, GersProven)
    ensures ChainAgrees(lib, request, w)
  {
    var b := w.bridgeWitness;
    DigestsWrittenOut(lib, b.insertedGers, b.bridgeExitsClaimed, b.globalIndicesUnset);
    ProvenOneByOne(lib, b.insertedGers, w.l1InfoRoot);
    assert Passes(lib, x, Replayed(InsertedGER)) && Passes(lib, x, Replayed(ClaimedGlobalIndex));
    assert Passes(lib, x, Replayed(RemovedGER)) && Passes(lib, x, Replayed(UnsetGlobalIndex));
    assert IndexBytes([]) == [];
    EmptyReplay(lib, x, RemovedGER);
    EmptyReplay(lib, x, UnsetGlobalIndex);
    forall t
      ensures PrevValue(lib, x, t).Some?
    {
      assert Passes(lib, x, Replayed(t));
    }
  }

  lemma AgreementIsSound(lib: Libraries, request: BuilderRequest, w: AggchainProofWitness, x: BridgeConstraintsInput)
    requires x == BridgeInput(w) && Plain(lib, request, w.bridgeWitness) && ChainAgrees(lib, request, w)
    ensures forall t :: Passes(lib, x, Replayed(t))
    ensures Passes(lib, x, ExitRootMatches) && Passes(lib, x, GersProven)
  {
    ProvenOneByOne(lib, w.bridgeWitness.insertedGers, w.l1InfoRoot);
    forall t
      ensures Passes(lib, x, Replayed(t))
    {
      AgreeingChainsReplay(lib, request, w, x, t);
    }
  }

  /**
    Host completeness, with its converse: the guest accepts the witness that the host assembled
    exactly when the chain agrees with the request. Everything else holds by construction.
   */
  lemma AssembledWitnessAccepted(lib: Libraries, setup: Setup, client: ContractsClient, request: BuilderRequest,
                                 w: AggchainProofWitness)
    requires Assembled(lib, setup, client, request, w)
    ensures Acceptable(lib, BridgeInput(w)) <==> ChainAgrees(lib, request, w)
  {
    var x := BridgeInput(w);
    AcceptableMeans(lib, x);
    NothingFiltered(lib, x);
    if ChainAgrees(lib, request, w) {
      AgreementIsSound(lib, request, w, x);
    } else if Sound(lib, x) {
      ReplayedChainsAgree(lib, request, w, x);
    }
  }

  /** What vouches for the state transition of a request, in terms of what was requested and fetched. */
  ghost predicate RequestVouched(lib: Libraries, setup: Setup, client: ContractsClient, request: BuilderRequest)
    requires Fetched(client, request)
  {
    var leaf := request.inputs.l1InfoTreeLeaf;
    var published := lib.sha256(AbiEncode(PublicValues(
                       leaf.inner.blockHash,
                       client.outputAtBlock(request.inputs.lastProvenBlock).value.stateRoot,
                       client.outputAtBlock(request.endBlock).value.stateRoot, request.endBlock % TWO32,
                       client.opSuccinctConfig.value.rollupConfigHash, setup.elfRangeVkeyCommitment,
                       client.trustedSequencer.value)));
    match request.fepVerification
    case Optimistic(signature) =>
      lib.recoverSigner(signature,
                        lib.combine3(published, client.localExitRoot(request.endBlock).value,
                                     lib.claimsCommitment(ClaimsInRange(request.inputs.importedBridgeExits,
                                                                        NewBlocks(request)))))
      == Some(client.trustedSequencer.value)
    case Proof(_, _) =>
      && request.inputs.l1InfoTreeMerkleProof.root == request.inputs.l1InfoTreeRootHash
      && lib.merkleVerify(request.inputs.l1InfoTreeMerkleProof, lib.leafHash(leaf), leaf.l1InfoTreeIndex)
      && lib.sp1ProofHolds(setup.aggregationVkey.hashBabyBear, published)
  }

  lemma VouchedAsRequested(lib: Libraries, setup: Setup, client: ContractsClient, request: BuilderRequest,
                           w: AggchainProofWitness)
    requires Assembled(lib, setup, client, request, w)
    ensures FepVouched(lib, w) <==> RequestVouched(lib, setup, client, request)
  {
  }

  /**
    Host and guest end to end: the guest commits values for the witness that the host assembled exactly when the
    chain agrees with the request, the signature or the proof vouches for the transition, and the key can be packed.
   */
  lemma AssembledWitnessCommitted(lib: Libraries, setup: Setup, client: ContractsClient, request: BuilderRequest,
                                  w: AggchainProofWitness)
    requires Assembled(lib, setup, client, request, w)
    ensures FepVouched(lib, w) && Acceptable(lib, BridgeInput(w)) && CommittedValues(lib, w).Some?
       <==> && ChainAgrees(lib, request, w) && RequestVouched(lib, setup, client, request)
            && setup.aggregationVkey.hashBabyBear[0] >= FIRST_WORD_MIN
  {
    AssembledWitnessAccepted(lib, setup, client, request, w);
    VouchedAsRequested(lib, setup, client, request, w);
    PackingIsExact(setup.aggregationVkey.hashBabyBear);
  }

  /**
    The second request starts after the last block of the first, under the same L1 root; the two sketches fetched of
    the block between them answer alike, and both ranges end with one bridge address.
   */
  ghost predicate Follows(lib: Libraries, setup: Setup, client: ContractsClient,
                          first: BuilderRequest, v: AggchainProofWitness,
                          second: BuilderRequest, w: AggchainProofWitness)
    requires Fetched(client, first) && Fetched(client, second)
  {
    && first.endBlock == second.inputs.lastProvenBlock
    && first.inputs.l1InfoTreeRootHash == second.inputs.l1InfoTreeRootHash
    && AnswerAlike(lib, client.newBlockSketch(first.endBlock).value, setup.staticCallCaller,
                   client.prevBlockSketch(first.endBlock).value, setup.staticCallCaller)
    && BridgeAt(lib, BridgeInput(v)) == BridgeAt(lib, BridgeInput(w))
  }

  lemma FollowingSharesBlock(lib: Libraries, setup: Setup, client: ContractsClient,
                             first: BuilderRequest, v: AggchainProofWitness,
                             second: BuilderRequest, w: AggchainProofWitness)
    requires Assembled(lib, setup, client, first, v) && Assembled(lib, setup, client, second, w)
    requires Follows(lib, setup, client, first, v, second, w)
    ensures SharesBlock(lib, BridgeInput(v), BridgeInput(w))
  {
  }

  /** Witnesses that the host assembled for one range after another, accepted one by one, are accepted as one. */
  lemma AssembledRangesCompose(lib: Libraries, setup: Setup, client: ContractsClient,
                               first: BuilderRequest, v: AggchainProofWitness,
                               second: BuilderRequest, w: AggchainProofWitness)
    requires Assembled(lib, setup, client, first, v) && Assembled(lib, setup, client, second, w)
    requires Follows(lib, setup, client, first, v, second, w)
    requires Acceptable(lib, BridgeInput(v)) && Acceptable(lib, BridgeInput(w))
    ensures Acceptable(lib, Join(lib, BridgeInput(v), BridgeInput(w)))
  {
    FollowingSharesBlock(lib, setup, client, first, v, second, w);
    SharedBlockIsAdjacent(lib, BridgeInput(v), BridgeInput(w));
    AdjacentRangesCompose(lib, BridgeInput(v), BridgeInput(w), Join(lib, BridgeInput(v), BridgeInput(w)));
  }

  /** Two requests that divide a third: the same lists, and the second starts after the last block of the first. */
  predicate Divided(whole: BuilderRequest, first: BuilderRequest, second: BuilderRequest) {
    && whole.inputs.gerLeaves == first.inputs.gerLeaves == second.inputs.gerLeaves
    && whole.inputs.importedBridgeExits == first.inputs.importedBridgeExits == second.inputs.importedBridgeExits
    && whole.inputs.l1InfoTreeRootHash == first.inputs.l1InfoTreeRootHash
    && whole.inputs.lastProvenBlock == first.inputs.lastProvenBlock <= first.endBlock < TWO64 - 1
    && first.endBlock == second.inputs.lastProvenBlock <= second.endBlock == whole.endBlock
  }

  /** The lists of a request name an order: no ties among its roots, and exits by block. */
  ghost predicate Ordered(request: BuilderRequest) {
    NoTies(request.inputs.gerLeaves, NewBlocks(request)) && ExitsInOrder(request.inputs.importedBridgeExits)
  }

  /** The lists for the blocks a+1..b are those for a+1..m and for m+1..b in turn. */
  lemma ListsAreAppended(lib: Libraries, inputs: AggchainProofInputs, a: U64, m: U64, b: U64,
                         u: BridgeWitness, v: BridgeWitness, w: BridgeWitness)
    requires a <= m <= b && m + 1 < TWO64
    requires NoTies(inputs.gerLeaves, BlockRange(a + 1, b)) && ExitsInOrder(inputs.importedBridgeExits)
    requires ListsOf(lib, inputs, BlockRange(a + 1, b), u)
    requires ListsOf(lib, inputs, BlockRange(a + 1, m), v) && ListsOf(lib, inputs, BlockRange(m + 1, b), w)
    ensures u.insertedGers == v.insertedGers + w.insertedGers
    ensures u.rawInsertedGers == v.rawInsertedGers + w.rawInsertedGers
    ensures u.bridgeExitsClaimed == v.bridgeExitsClaimed + w.bridgeExitsClaimed
  {
    ListsOfAdjacentRanges(inputs.gerLeaves, a, m, b, u.insertedGers, v.insertedGers, w.insertedGers);
    ClaimsOfAdjacentRanges(inputs.importedBridgeExits, a, m, b);
    DigestsAreAppended(lib, v.insertedGers, w.insertedGers);
  }

  lemma DigestsAreAppended(lib: Libraries, s: seq<InsertedGer>, t: seq<InsertedGer>)
    ensures GersOf(lib, s + t) == GersOf(lib, s) + GersOf(lib, t)
  {
  }

  /** One input starts where x starts and ends where y ends. */
  predicate Spans(x: BridgeConstraintsInput, y: BridgeConstraintsInput, z: BridgeConstraintsInput) {
    && z.gerAddr == x.gerAddr && z.l1InfoRoot == x.l1InfoRoot && z.newLocalExitRoot == y.newLocalExitRoot
    && z.prevL2BlockHash == x.prevL2BlockHash && z.newL2BlockHash == y.newL2BlockHash
    && z.bridgeWitness.prevL2BlockSketch == x.bridgeWitness.prevL2BlockSketch
    && z.bridgeWitness.newL2BlockSketch == y.bridgeWitness.newL2BlockSketch
    && z.bridgeWitness.callerAddress == x.bridgeWitness.callerAddress
  }

  /** The lists of one witness are those of two others in turn, and nothing is taken from any. */
  predicate Appends(u: BridgeWitness, v: BridgeWitness, w: BridgeWitness) {
    && NothingTaken(u) && NothingTaken(v) && NothingTaken(w)
    && u.insertedGers == v.insertedGers + w.insertedGers
    && u.rawInsertedGers == v.rawInsertedGers + w.rawInsertedGers
    && u.bridgeExitsClaimed == v.bridgeExitsClaimed + w.bridgeExitsClaimed
  }

  lemma AppendsIsJoin(lib: Libraries, x: BridgeConstraintsInput, y: BridgeConstraintsInput, z: BridgeConstraintsInput)
    requires Spans(x, y, z) && Appends(z.bridgeWitness, x.bridgeWitness, y.bridgeWitness)
    requires z.commitImportedBridgeExits == lib.claimsCommitment(z.bridgeWitness.bridgeExitsClaimed)
    ensures z == Join(lib, x, y)
  {
    NothingRemoved(x.bridgeWitness.bridgeExitsClaimed, IndexOf);
    NothingRemoved(y.bridgeWitness.bridgeExitsClaimed, IndexOf);
  }

  lemma WholeSpansParts(lib: Libraries, setup: Setup, client: ContractsClient,
                        whole: BuilderRequest, u: AggchainProofWitness,
                        first: BuilderRequest, v: AggchainProofWitness,
                        second: BuilderRequest, w: AggchainProofWitness)
    requires Assembled(lib, setup, client, whole, u)
    requires Assembled(lib, setup, client, first, v) && Assembled(lib, setup, client, second, w)
    requires Divided(whole, first, second)
    ensures Spans(BridgeInput(v), BridgeInput(w), BridgeInput(u))
    ensures u.commitImportedBridgeExits == lib.claimsCommitment(u.bridgeWitness.bridgeExitsClaimed)
  {
  }

  lemma PartsAppend(lib: Libraries, whole: BuilderRequest, first: BuilderRequest, second: BuilderRequest,
                    u: BridgeWitness, v: BridgeWitness, w: BridgeWitness)
    requires Divided(whole, first, second) && Ordered(whole)
    requires ListsOf(lib, whole.inputs, NewBlocks(whole), u) && NothingTaken(u)
    requires ListsOf(lib, first.inputs, NewBlocks(first), v) && NothingTaken(v)
    requires ListsOf(lib, second.inputs, NewBlocks(second), w) && NothingTaken(w)
    ensures Appends(u, v, w)
  {
    var a, m, b := whole.inputs.lastProvenBlock, first.endBlock, whole.endBlock;
    assert NewBlocks(whole) == BlockRange(a + 1, b);
    assert NewBlocks(first) == BlockRange(a + 1, m) && NewBlocks(second) == BlockRange(m + 1, b);
    SameLists(lib, first.inputs, whole.inputs, NewBlocks(first), v);
    SameLists(lib, second.inputs, whole.inputs, NewBlocks(second), w);
    ListsAreAppended(lib, whole.inputs, a, m, b, u, v, w);
  }

  lemma SameLists(lib: Libraries, inputs: AggchainProofInputs, others: AggchainProofInputs, range: BlockRange,
                  b: BridgeWitness)
    requires ListsOf(lib, inputs, range, b)
    requires inputs.gerLeaves == others.gerLeaves && inputs.importedBridgeExits == others.importedBridgeExits
    ensures ListsOf(lib, others, range, b)
  {
  }

  lemma AssembledLists(lib: Libraries, setup: Setup, client: ContractsClient, request: BuilderRequest,
                       w: AggchainProofWitness)
    requires Assembled(lib, setup, client, request, w)
    ensures ListsOf(lib, request.inputs, NewBlocks(request), w.bridgeWitness) && NothingTaken(w.bridgeWitness)
  {
  }

  lemma WholeAppendsParts(lib: Libraries, setup: Setup, client: ContractsClient,
                          whole: BuilderRequest, u: AggchainProofWitness,
                          first: BuilderRequest, v: AggchainProofWitness,
                          second: BuilderRequest, w: AggchainProofWitness)
    requires Assembled(lib, setup, client, whole, u)
    requires Assembled(lib, setup, client, first, v) && Assembled(lib, setup, client, second, w)
    requires Divided(whole, first, second) && Ordered(whole)
    ensures Appends(u.bridgeWitness, v.bridgeWitness, w.bridgeWitness)
  {
    AssembledLists(lib, setup, client, whole, u);
    AssembledLists(lib, setup, client, first, v);
    AssembledLists(lib, setup, client, second, w);
    PartsAppend(lib, whole, first, second, u.bridgeWitness, v.bridgeWitness, w.bridgeWitness);
  }

  /** The bridge input that the host assembles for a divided request is the join of those for its parts. */
  lemma WholeRangeIsJoin(lib: Libraries, setup: Setup, client: ContractsClient,
                         whole: BuilderRequest, u: AggchainProofWitness,
                         first: BuilderRequest, v: AggchainProofWitness,
                         second: BuilderRequest, w: AggchainProofWitness)
    requires Assembled(lib, setup, client, whole, u)
    requires Assembled(lib, setup, client, first, v) && Assembled(lib, setup, client, second, w)
    requires Divided(whole, first, second) && Ordered(whole)
    ensures BridgeInput(u) == Join(lib, BridgeInput(v), BridgeInput(w))
  {
    WholeSpansParts(lib, setup, client, whole, u, first, v, second, w);
    WholeAppendsParts(lib, setup, client, whole, u, first, v, second, w);
    AppendsIsJoin(lib, BridgeInput(v), BridgeInput(w), BridgeInput(u));
  }

  /**
    A range may be proven whole whenever it may be proven in two parts: the guest's bridge checks accept
    the witness that the host assembles for the whole range if they accept those for its parts.
   */
  lemma WholeRangeAccepted(lib: Libraries, setup: Setup, client: ContractsClient,
                           whole: BuilderRequest, u: AggchainProofWitness,
                           first: BuilderRequest, v: AggchainProofWitness,
                           second: BuilderRequest, w: AggchainProofWitness)
    requires Assembled(lib, setup, client, whole, u)
    requires Assembled(lib, setup, client, first, v) && Assembled(lib, setup, client, second, w)
    requires Divided(whole, first, second) && Ordered(whole)
    requires Follows(lib, setup, client, first, v, second, w)
    requires Acceptable(lib, BridgeInput(v)) && Acceptable(lib, BridgeInput(w))
    ensures Acceptable(lib, BridgeInput(u))
  {
    WholeRangeIsJoin(lib, setup, client, whole, u, first, v, second, w);
    AssembledRangesCompose(lib, setup, client, first, v, second, w);
  }

  /**
    Across three crates: proposer bytes that the builder accepted are the very bytes that the guest
    hashes exactly when they are canonical, and their block number is the end block modulo 2^32.
   */
  lemma ProposerBytesAreHashed(lib: Libraries, setup: Setup, client: ContractsClient, request: BuilderRequest,
                               w: AggchainProofWitness, bytes: seq<byte>)
    requires NoFailure(Failures(setup, client, request)) && Assembled(lib, setup, client, request, w)
    requires request.fepVerification.Proof? && AbiDecode(bytes) == Ok(request.fepVerification.publicValues)
    ensures AbiEncode(PublicValuesOf(w.fep)) == bytes <==> Canonical(bytes)
    ensures Canonical(bytes) ==> Sha256PublicValues(lib, w.fep) == lib.sha256(bytes)
    ensures request.fepVerification.publicValues.l2BlockNumber == request.endBlock % TWO32
  {
    assert Failures(setup, client, request)[8].None?;
    EncodeDecoded(bytes);
  }

  /**
    The custom chain data sent to the agg-sender, put into the packed parameters that the guest
    committed to, gives back their 213 bytes: exactly when the end block fits 32 bits.
   */
  lemma CustomChainDataAgrees(lib: Libraries, setup: Setup, client: ContractsClient, request: BuilderRequest,
                              w: AggchainProofWitness)
    requires Assembled(lib, setup, client, request, w) && AggchainParamsOf(w.fep).Some?
    ensures var params := AggchainParamsOf(w.fep).value;
            var data := ComputeCustomChainData(ComputeClaimRoot(w.fep), request.endBlock);
            AbiEncodePacked(Repack(params, data)) == AbiEncodePacked(params) <==> request.endBlock < TWO32
  {
    CustomChainDataFields(Selector(AGGCHAIN_PROOF_PROGRAM_VERSION, AGGCHAIN_TYPE), ComputeClaimRoot(w.fep),
                          request.endBlock);
    RepackAgrees(AggchainParamsOf(w.fep).value,
                 ComputeCustomChainData(ComputeClaimRoot(w.fep), request.endBlock), request.endBlock);
  }
}
