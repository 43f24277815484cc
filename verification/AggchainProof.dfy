/** The guest program: the whole witness is verified, and the public values are committed. */
module AggchainProof {
  import opened Results
  import opened Bytes
  import opened Foreign
  import opened Bn254
  import opened Encodings
  import opened HashChain
  import opened StaticCall
  import opened BridgeConstraints
  import opened BridgeTheorems
  import opened FullExecutionProof

  /** Address of the GER contract, the same on every sovereign chain. */
  const L2_GER_ADDR: Address :=
    [0xa4, 0x0d, 0x5f, 0x56, 0x74, 0x5a, 0x11, 0x8d, 0x09, 0x06,
     0xa3, 0x4e, 0x69, 0xae, 0xc8, 0xc0, 0xdb, 0x1c, 0xb8, 0xfa]

  datatype AggchainProofWitness = AggchainProofWitness(
    prevLocalExitRoot: Digest,
    newLocalExitRoot: Digest,
    l1InfoRoot: Digest,
    originNetwork: U32,
    fep: FepInputs,
    commitImportedBridgeExits: Digest,
    bridgeWitness: BridgeWitness
  )

  datatype AggchainProofPublicValues = AggchainProofPublicValues(
    prevLocalExitRoot: Digest,
    newLocalExitRoot: Digest,
    l1InfoRoot: Digest,
    originNetwork: U32,
    commitImportedBridgeExits: Digest,
    aggchainParams: Digest
  )

  datatype ProofError = BridgeConstraintsError(bridge: BridgeError) | FepInputsError(fep: FepError)

  function BridgeInput(w: AggchainProofWitness): BridgeConstraintsInput {
    BridgeConstraintsInput(L2_GER_ADDR, w.fep.prevBlockHash, w.fep.newBlockHash, w.newLocalExitRoot, w.l1InfoRoot,
                           w.commitImportedBridgeExits, w.bridgeWitness)
  }

  /** None when hashing the aggchain parameters panics. */
  function CommittedValues(lib: Libraries, w: AggchainProofWitness): Option<AggchainProofPublicValues> {
    match AggchainParamsOf(w.fep)
    case None => None
    case Some(params) =>
      Some(AggchainProofPublicValues(w.prevLocalExitRoot, w.newLocalExitRoot, w.l1InfoRoot, w.originNetwork,
                                     w.commitImportedBridgeExits, lib.keccak256(AbiEncodePacked(params))))
  }

  ghost predicate FepVouched(lib: Libraries, w: AggchainProofWitness) {
    Vouched(lib, w.fep, w.l1InfoRoot, w.newLocalExitRoot, w.commitImportedBridgeExits)
  }

  /** `verify_aggchain_inputs`: commits the public values exactly when everything holds. */
  method VerifyAggchainInputs(lib: Libraries, w: AggchainProofWitness)
    returns (r: Run<AggchainProofPublicValues, ProofError>)
    ensures r.Done? <==> FepVouched(lib, w) && Acceptable(lib, BridgeInput(w)) && CommittedValues(lib, w).Some?
    ensures r.Done? ==> CommittedValues(lib, w) == Some(r.value)
    ensures r.Panicked?
       <==> || FullExecutionProof.Verify(lib, w.fep, w.l1InfoRoot, w.newLocalExitRoot,
                                         w.commitImportedBridgeExits).Panicked?
            || (FepVouched(lib, w) && Acceptable(lib, BridgeInput(w)) && CommittedValues(lib, w).None?)
    ensures r.Rejected? && r.error.FepInputsError?
        ==> FullExecutionProof.Verify(lib, w.fep, w.l1InfoRoot, w.newLocalExitRoot, w.commitImportedBridgeExits)
            == Rejected(r.error.fep)
    ensures r.Rejected? && r.error.BridgeConstraintsError?
        ==> FepVouched(lib, w) && Decides(lib, BridgeInput(w), ORDER, Err(r.error.bridge))
  {
    var fep := FullExecutionProof.Verify(lib, w.fep, w.l1InfoRoot, w.newLocalExitRoot, w.commitImportedBridgeExits);
    match fep
    case Rejected(e) => return Rejected(FepInputsError(e));
    case Panicked => return Panicked;
    case Done(_) =>
    var bridge := BridgeConstraints.Verify(lib, BridgeInput(w));
    OneVerdict(lib, BridgeInput(w), bridge, bridge);
    if bridge.Err? {
      return Rejected(BridgeConstraintsError(bridge.error));
    }
    match CommittedValues(lib, w)
    case None => return Panicked;
    case Some(values) => return Done(values);
  }

  /** The address of the GER contract, read as a number. */
  lemma GerAddressReads()
    ensures FromBE(L2_GER_ADDR) == 0xa40d5f56745a118d0906a34e69aec8c0db1cb8fa
  {
    var high, low := L2_GER_ADDR[..10], L2_GER_ADDR[10..];
    assert L2_GER_ADDR == high + low;
    FromBEAppend(high, low);
    assert high == [0xa4, 0x0d, 0x5f, 0x56, 0x74] + [0x5a, 0x11, 0x8d, 0x09, 0x06];
    FromBEAppend([0xa4, 0x0d, 0x5f, 0x56, 0x74], [0x5a, 0x11, 0x8d, 0x09, 0x06]);
    assert low == [0xa3, 0x4e, 0x69, 0xae, 0xc8] + [0xc0, 0xdb, 0x1c, 0xb8, 0xfa];
    FromBEAppend([0xa3, 0x4e, 0x69, 0xae, 0xc8], [0xc0, 0xdb, 0x1c, 0xb8, 0xfa]);
    FiveBytes(0xa4, 0x0d, 0x5f, 0x56, 0x74);
    FiveBytes(0x5a, 0x11, 0x8d, 0x09, 0x06);
    FiveBytes(0xa3, 0x4e, 0x69, 0xae, 0xc8);
    FiveBytes(0xc0, 0xdb, 0x1c, 0xb8, 0xfa);
    assert Pow256(5) == 0x100_0000_0000;
    assert Pow256(10) == 0x1_0000_0000_0000_0000_0000;
  }

  lemma FiveBytes(a: byte, b: byte, c: byte, d: byte, e: byte)
    ensures FromBE([a, b, c, d, e]) == (((a * 256 + b) * 256 + c) * 256 + d) * 256 + e
  {
    assert FromBE([a]) == a by {
      assert [a][..0] == [];
    }
    assert [a, b][..1] == [a] && FromBE([a, b]) == a * 256 + b;
    assert [a, b, c][..2] == [a, b] && FromBE([a, b, c]) == (a * 256 + b) * 256 + c;
    assert [a, b, c, d][..3] == [a, b, c] && FromBE([a, b, c, d]) == ((a * 256 + b) * 256 + c) * 256 + d;
    assert [a, b, c, d, e][..4] == [a, b, c, d];
  }

  /** A chain of a contract absorbed these digests between the two blocks of the witness. */
  ghost predicate Advanced(lib: Libraries, w: AggchainProofWitness, holder: Address, call: Call, hashes: seq<Digest>) {
    var b := w.bridgeWitness;
    var prev := AnchoredReturn(lib, holder, b.callerAddress, b.prevL2BlockSketch, call,
                               lib.decodeWord, w.fep.prevBlockHash);
    var next := AnchoredReturn(lib, holder, b.callerAddress, b.newL2BlockSketch, call,
                               lib.decodeWord, w.fep.newBlockHash);
    prev.Some? && next == Some(Replay(lib.combine, prev.value, hashes))
  }

  /** The leaf commitments of the claims, in order. */
  function ClaimHashes(lib: Libraries, b: BridgeWitness): seq<Digest> {
    seq<Digest>(|b.bridgeExitsClaimed|,
                i requires 0 <= i < |b.bridgeExitsClaimed| => lib.exitCommitment(b.bridgeExitsClaimed[i]))
  }

  /** The unset indices in 32 big-endian bytes each. */
  function UnsetHashes(b: BridgeWitness): seq<Digest> {
    seq<Digest>(|b.globalIndicesUnset|, i requires 0 <= i < |b.globalIndicesUnset| => ToBE(b.globalIndicesUnset[i], 32))
  }

  /**
    The four chains absorbed the lists of the witness: roots as they are, claims by their leaf commitments, unset
    indices by their 32 big-endian bytes; and the bridge that the GER contract names has the exit root.
   */
  ghost predicate ChainsAndRoot(lib: Libraries, w: AggchainProofWitness, newLocalExitRoot: Digest) {
    var b := w.bridgeWitness;
    var bridge := AnchoredReturn(lib, L2_GER_ADDR, b.callerAddress, b.newL2BlockSketch, Call.BridgeAddress,
                                 lib.decodeAddress, w.fep.newBlockHash);
    && bridge.Some?
    && Advanced(lib, w, L2_GER_ADDR, InsertedGERHashChain, b.rawInsertedGers)
    && Advanced(lib, w, L2_GER_ADDR, RemovedGERHashChain, b.removedGers)
    && Advanced(lib, w, bridge.value, ClaimedGlobalIndexHashChain, ClaimHashes(lib, b))
    && Advanced(lib, w, bridge.value, UnsetGlobalIndexHashChain, UnsetHashes(b))
    && AnchoredReturn(lib, bridge.value, b.callerAddress, b.newL2BlockSketch, GetRoot,
                      lib.decodeWord, w.fep.newBlockHash) == Some(newLocalExitRoot)
  }

  /** Unset claims and removed roots can be counted in machine words. */
  ghost predicate RemovalsCounted(lib: Libraries, b: BridgeWitness) {
    && (forall k :: k in b.globalIndicesUnset ==> multiset(b.globalIndicesUnset)[k] <= lib.usizeMax)
    && (forall k :: k in b.removedGers ==> multiset(b.removedGers)[k] <= lib.usizeMax)
  }

  /** The roots that were not removed are those of the proven leaves, each under the L1 root. */
  ghost predicate RootsProven(lib: Libraries, b: BridgeWitness, l1InfoRoot: Digest) {
    && |RemainingGers(b)| == |b.insertedGers|
    && forall i :: 0 <= i < |b.insertedGers|
                   ==> var g := b.insertedGers[i];
                       && RemainingGers(b)[i] == lib.leafGer(g.l1InfoTreeLeaf)
                       && g.proof.root == l1InfoRoot
                       && lib.merkleVerify(g.proof, lib.leafHash(g.l1InfoTreeLeaf), g.l1InfoTreeLeaf.l1InfoTreeIndex)
  }

  /** The absorbed lists of the four chains, written out. */
  lemma ListsWrittenOut(lib: Libraries, b: BridgeWitness)
    ensures Commitments(lib, b.bridgeExitsClaimed) == ClaimHashes(lib, b)
    ensures IndexBytes(b.globalIndicesUnset) == UnsetHashes(b)
  {
  }

  lemma ChainsReplay(lib: Libraries, w: AggchainProofWitness, x: BridgeConstraintsInput, t: HashChainType)
    requires x == BridgeInput(w) && ChainsAndRoot(lib, w, w.newLocalExitRoot)
    ensures Passes(lib, x, Replayed(t))
  {
    ReadOnChain(lib, x);
    ListsWrittenOut(lib, w.bridgeWitness);
    match t
    case InsertedGER =>
    case RemovedGER =>
    case ClaimedGlobalIndex =>
    case UnsetGlobalIndex =>
  }

  lemma ChainsAdvance(lib: Libraries, w: AggchainProofWitness, x: BridgeConstraintsInput)
    requires x == BridgeInput(w) && (forall t :: Passes(lib, x, Replayed(t))) && Passes(lib, x, ExitRootMatches)
    ensures ChainsAndRoot(lib, w, w.newLocalExitRoot)
  {
    ReadOnChain(lib, x);
    ListsWrittenOut(lib, w.bridgeWitness);
    assert Passes(lib, x, Replayed(InsertedGER)) && Passes(lib, x, Replayed(RemovedGER));
    assert Passes(lib, x, Replayed(ClaimedGlobalIndex)) && Passes(lib, x, Replayed(UnsetGlobalIndex));
  }

  lemma ChainsReplayed(lib: Libraries, w: AggchainProofWitness, x: BridgeConstraintsInput)
    requires x == BridgeInput(w)
    ensures (forall t :: Passes(lib, x, Replayed(t))) && Passes(lib, x, ExitRootMatches)
       <==> ChainsAndRoot(lib, w, w.newLocalExitRoot)
  {
    if ChainsAndRoot(lib, w, w.newLocalExitRoot) {
      forall t
        ensures Passes(lib, x, Replayed(t))
      {
        ChainsReplay(lib, w, x, t);
      }
    } else if (forall t :: Passes(lib, x, Replayed(t))) && Passes(lib, x, ExitRootMatches) {
      ChainsAdvance(lib, w, x);
    }
  }

  lemma RootsMatchAndProven(lib: Libraries, w: AggchainProofWitness, x: BridgeConstraintsInput)
    requires x == BridgeInput(w)
    ensures Passes(lib, x, GersMatch) && Passes(lib, x, GersProven)
       <==> RootsProven(lib, w.bridgeWitness, w.l1InfoRoot)
  {
  }

  lemma RemovalsCountedPass(lib: Libraries, w: AggchainProofWitness, x: BridgeConstraintsInput)
    requires x == BridgeInput(w)
    ensures Passes(lib, x, ClaimsCounted) && Passes(lib, x, GersCounted) <==> RemovalsCounted(lib, w.bridgeWitness)
  {
  }

  lemma CommitmentPasses(lib: Libraries, w: AggchainProofWitness, x: BridgeConstraintsInput)
    requires x == BridgeInput(w)
    ensures Passes(lib, x, CommitmentMatches)
       <==> w.commitImportedBridgeExits == lib.claimsCommitment(RemainingClaims(w.bridgeWitness))
  {
  }

  lemma AcceptedParts(lib: Libraries, w: AggchainProofWitness, x: BridgeConstraintsInput)
    requires x == BridgeInput(w)
    ensures Sound(lib, x)
       <==> && ChainsAndRoot(lib, w, w.newLocalExitRoot)
            && RemovalsCounted(lib, w.bridgeWitness)
            && w.commitImportedBridgeExits == lib.claimsCommitment(RemainingClaims(w.bridgeWitness))
            && RootsProven(lib, w.bridgeWitness, w.l1InfoRoot)
  {
    ChainsReplayed(lib, w, x);
    RemovalsCountedPass(lib, w, x);
    CommitmentPasses(lib, w, x);
    RootsMatchAndProven(lib, w, x);
  }

  /** Acceptance by the bridge checks, written out for the witness of the guest. */
  lemma AcceptedExactly(lib: Libraries, w: AggchainProofWitness)
    ensures Acceptable(lib, BridgeInput(w))
       <==> && ChainsAndRoot(lib, w, w.newLocalExitRoot)
            && RemovalsCounted(lib, w.bridgeWitness)
            && w.commitImportedBridgeExits == lib.claimsCommitment(RemainingClaims(w.bridgeWitness))
            && RootsProven(lib, w.bridgeWitness, w.l1InfoRoot)
  {
    AcceptableMeans(lib, BridgeInput(w));
    AcceptedParts(lib, w, BridgeInput(w));
  }

  /** The hashed parameters, read at their offsets, are the roots, block, keys, sequencer and mode of the execution. */
  ghost predicate ParamsSay(lib: Libraries, f: FepInputs, aggchainParams: Digest) {
    exists bytes :: |bytes| == 213 && aggchainParams == lib.keccak256(bytes) && Unpacks(bytes, f)
  }

  ghost predicate Unpacks(bytes: seq<byte>, f: FepInputs)
    requires |bytes| == 213
  {
    var p := Unpack(bytes);
    && p.l2PreRoot == f.prevStateRoot && p.claimRoot == f.newStateRoot && p.claimBlockNum == f.claimBlockNum
    && p.rollupConfigHash == f.rollupConfigHash && p.trustedSequencer == f.trustedSequencer
    && p.rangeVkeyCommitment == f.rangeVkeyCommitment && (p.optimisticMode <==> f.signatureOptimisticMode.Some?)
    && Words(FromBE(p.aggregationVkeyHash), 8) == f.aggregationVkeyHash
  }

  lemma ParamsAreSaid(lib: Libraries, f: FepInputs)
    requires AggchainParamsOf(f).Some?
    ensures ParamsSay(lib, f, lib.keccak256(AbiEncodePacked(AggchainParamsOf(f).value)))
  {
    EncodingsAgree(f);
    assert Unpacks(AbiEncodePacked(AggchainParamsOf(f).value), f);
  }

  /**
    What the values committed by a run of the guest say, read from the witness alone. The state
    transition is vouched for by the sequencer's signature over the committed exit root and exits, or
    by a proof whose L1 head is under the committed L1 root. Between its two blocks the four chains
    absorbed the lists of the witness and ended with the committed exit root; the commitment covers
    the claims that were not unset; the roots that were not removed are proven to the committed L1
    root; and the parameters are those of the transition.
   */
  lemma CommittedValuesMean(lib: Libraries, w: AggchainProofWitness, v: AggchainProofPublicValues)
    requires FepVouched(lib, w) && Acceptable(lib, BridgeInput(w)) && CommittedValues(lib, w) == Some(v)
    ensures v.prevLocalExitRoot == w.prevLocalExitRoot && v.originNetwork == w.originNetwork
    ensures v.newLocalExitRoot == w.newLocalExitRoot && v.l1InfoRoot == w.l1InfoRoot
    ensures Vouched(lib, w.fep, v.l1InfoRoot, v.newLocalExitRoot, v.commitImportedBridgeExits)
    ensures ChainsAndRoot(lib, w, v.newLocalExitRoot)
    ensures v.commitImportedBridgeExits == lib.claimsCommitment(RemainingClaims(w.bridgeWitness))
    ensures RootsProven(lib, w.bridgeWitness, v.l1InfoRoot)
    ensures ParamsSay(lib, w.fep, v.aggchainParams)
  {
    AcceptedExactly(lib, w);
    ParamsAreSaid(lib, w.fep);
  }
}
