/** Public values of the full execution proof, and their verification in the guest. */
module FullExecutionProof {
  import opened Results
  import opened Bytes
  import opened Foreign
  import opened Bn254
  import opened Encodings

  datatype FepInputs = FepInputs(
    l1Head: Digest,
    claimBlockNum: U32,
    rollupConfigHash: Digest,
    prevStateRoot: Digest,
    prevWithdrawalStorageRoot: Digest,
    prevBlockHash: Digest,
    newStateRoot: Digest,
    newWithdrawalStorageRoot: Digest,
    newBlockHash: Digest,
    aggregationVkeyHash: BabyBearDigest,
    rangeVkeyCommitment: Digest,
    trustedSequencer: Address,
    signatureOptimisticMode: Option<Signature>,
    l1InfoTreeLeaf: L1InfoTreeLeaf,
    l1HeadInclusionProof: MerkleProof
  )

  datatype FepError =
    | MismatchL1Head(fromL1InfoTreeLeaf: Digest, fromFepPublicValues: Digest)
    | InvalidInclusionProofL1Head(index: U32, l1LeafHash: Digest, l1InfoRoot: Digest)
    | InvalidSignature
    | InvalidSigner(declared: Address, recovered: Address)

  /** `From<&FepInputs> for AggregationProofPublicValues`. */
  function PublicValuesOf(f: FepInputs): PublicValues {
    PublicValues(f.l1Head, f.prevStateRoot, f.newStateRoot, f.claimBlockNum, f.rollupConfigHash,
                 f.rangeVkeyCommitment, f.trustedSequencer)
  }

  /** `From<&FepInputs> for AggchainParamsValues`; None when packing the key hash panics. */
  function AggchainParamsOf(f: FepInputs): Option<AggchainParams> {
    match HashBn254(f.aggregationVkeyHash)
    case None => None
    case Some(vkeyHash) =>
      Some(AggchainParams(f.prevStateRoot, f.newStateRoot, f.claimBlockNum, f.rollupConfigHash,
                          f.signatureOptimisticMode.Some?, f.trustedSequencer, f.rangeVkeyCommitment, vkeyHash))
  }

  function Sha256PublicValues(lib: Libraries, f: FepInputs): Digest {
    lib.sha256(AbiEncode(PublicValuesOf(f)))
  }

  /** The root in custom chain data and in the packed parameters: the state root itself, not a hash of it. */
  function ComputeOutputRoot(stateRoot: Digest, withdrawalStorageRoot: Digest, blockHash: Digest): Digest {
    stateRoot
  }

  function ComputeClaimRoot(f: FepInputs): Digest {
    ComputeOutputRoot(f.newStateRoot, f.newWithdrawalStorageRoot, f.newBlockHash)
  }

  function ComputeL2PreRoot(f: FepInputs): Digest {
    ComputeOutputRoot(f.prevStateRoot, f.prevWithdrawalStorageRoot, f.prevBlockHash)
  }

  function SignedCommitment(lib: Libraries, f: FepInputs, newLocalExitRoot: Digest, commitImportedBridgeExits: Digest)
    : Digest
  {
    lib.combine3(Sha256PublicValues(lib, f), newLocalExitRoot, commitImportedBridgeExits)
  }

  /** The head is the block hash of a leaf proven to be in the L1 info tree. */
  ghost predicate HeadInTree(lib: Libraries, f: FepInputs, l1InfoRoot: Digest) {
    && f.l1Head == f.l1InfoTreeLeaf.inner.blockHash
    && f.l1HeadInclusionProof.root == l1InfoRoot
    && lib.merkleVerify(f.l1HeadInclusionProof, lib.leafHash(f.l1InfoTreeLeaf), f.l1InfoTreeLeaf.l1InfoTreeIndex)
  }

  function VerifyL1Head(lib: Libraries, f: FepInputs, l1InfoRoot: Digest): (r: Result<(), FepError>)
    ensures r.Ok? <==> HeadInTree(lib, f, l1InfoRoot)
    ensures f.l1Head != f.l1InfoTreeLeaf.inner.blockHash <==> r.Err? && r.error.MismatchL1Head?
    ensures r.Err? && r.error.MismatchL1Head?
        ==> r.error.fromL1InfoTreeLeaf == f.l1InfoTreeLeaf.inner.blockHash && r.error.fromFepPublicValues == f.l1Head
    ensures r.Err? && !r.error.MismatchL1Head?
        ==> r.error == InvalidInclusionProofL1Head(f.l1InfoTreeLeaf.l1InfoTreeIndex, lib.leafHash(f.l1InfoTreeLeaf),
                                                   l1InfoRoot)
  {
    if f.l1Head != f.l1InfoTreeLeaf.inner.blockHash then
      Err(MismatchL1Head(f.l1InfoTreeLeaf.inner.blockHash, f.l1Head))
    else
      var leafHash, index := lib.leafHash(f.l1InfoTreeLeaf), f.l1InfoTreeLeaf.l1InfoTreeIndex;
      var valid := lib.merkleVerify(f.l1HeadInclusionProof, leafHash, index);
      if !(valid && l1InfoRoot == f.l1HeadInclusionProof.root) then
        Err(InvalidInclusionProofL1Head(index, leafHash, l1InfoRoot))
      else Ok(())
  }

  /** What vouches for the state transition: the sequencer's signature, or a proof anchored to L1. */
  ghost predicate Vouched(lib: Libraries, f: FepInputs, l1InfoRoot: Digest, newLocalExitRoot: Digest,
                          commitImportedBridgeExits: Digest) {
    match f.signatureOptimisticMode
    case Some(signature) =>
      lib.recoverSigner(signature, SignedCommitment(lib, f, newLocalExitRoot, commitImportedBridgeExits))
      == Some(f.trustedSequencer)
    case None =>
      HeadInTree(lib, f, l1InfoRoot) && lib.sp1ProofHolds(f.aggregationVkeyHash, Sha256PublicValues(lib, f))
  }

  /** `FepInputs::verify` in the guest, where a proof that does not hold stops the program. */
  function Verify(lib: Libraries, f: FepInputs, l1InfoRoot: Digest, newLocalExitRoot: Digest,
                  commitImportedBridgeExits: Digest)
    : (r: Run<(), FepError>)
    ensures r.Done? <==> Vouched(lib, f, l1InfoRoot, newLocalExitRoot, commitImportedBridgeExits)
    ensures f.signatureOptimisticMode.Some?
        ==> match lib.recoverSigner(f.signatureOptimisticMode.value,
                                    SignedCommitment(lib, f, newLocalExitRoot, commitImportedBridgeExits))
            case None => r == Rejected(InvalidSignature)
            case Some(signer) =>
              r.Rejected? <==> r == Rejected(InvalidSigner(f.trustedSequencer, signer)) && signer != f.trustedSequencer
    ensures r.Rejected? && f.signatureOptimisticMode.None? ==> VerifyL1Head(lib, f, l1InfoRoot) == Err(r.error)
    ensures r.Panicked? <==> f.signatureOptimisticMode.None? && HeadInTree(lib, f, l1InfoRoot)
                             && !lib.sp1ProofHolds(f.aggregationVkeyHash, Sha256PublicValues(lib, f))
  {
    match f.signatureOptimisticMode
    case Some(signature) =>
      var commitment := SignedCommitment(lib, f, newLocalExitRoot, commitImportedBridgeExits);
      (match lib.recoverSigner(signature, commitment)
       case None => Rejected(InvalidSignature)
       case Some(signer) =>
         if signer != f.trustedSequencer then Rejected(InvalidSigner(f.trustedSequencer, signer)) else Done(()))
    case None =>
      match VerifyL1Head(lib, f, l1InfoRoot)
      case Err(e) => Rejected(e)
      case Ok(_) =>
        if lib.sp1ProofHolds(f.aggregationVkeyHash, Sha256PublicValues(lib, f)) then Done(()) else Panicked
  }

  /**
    The verdict written out: the sequencer signed the hash of public values, exit root and exit commitment, in
    this order; or the head is the block hash of a leaf under the L1 root and a proof attests the public values.
   */
  lemma VerifiedExactly(lib: Libraries, f: FepInputs, l1InfoRoot: Digest, newLocalExitRoot: Digest,
                        commitImportedBridgeExits: Digest)
    ensures var published := lib.sha256(AbiEncode(PublicValues(
                               f.l1Head, f.prevStateRoot, f.newStateRoot, f.claimBlockNum,
                               f.rollupConfigHash, f.rangeVkeyCommitment, f.trustedSequencer)));
            var leaf := f.l1InfoTreeLeaf;
            Verify(lib, f, l1InfoRoot, newLocalExitRoot, commitImportedBridgeExits).Done?
            <==>
            match f.signatureOptimisticMode
            case Some(signature) =>
              lib.recoverSigner(signature, lib.combine3(published, newLocalExitRoot, commitImportedBridgeExits))
              == Some(f.trustedSequencer)
            case None =>
              && f.l1Head == leaf.inner.blockHash && f.l1HeadInclusionProof.root == l1InfoRoot
              && lib.merkleVerify(f.l1HeadInclusionProof, lib.leafHash(leaf), leaf.l1InfoTreeIndex)
              && lib.sp1ProofHolds(f.aggregationVkeyHash, published)
  {
  }

  /** In signature mode, the address recovered from that hash decides the outcome. */
  lemma SignerDecides(lib: Libraries, f: FepInputs, l1InfoRoot: Digest, newLocalExitRoot: Digest,
                      commitImportedBridgeExits: Digest)
    requires f.signatureOptimisticMode.Some?
    ensures Verify(lib, f, l1InfoRoot, newLocalExitRoot, commitImportedBridgeExits)
         == match lib.recoverSigner(f.signatureOptimisticMode.value,
                                    lib.combine3(lib.sha256(AbiEncode(PublicValuesOf(f))), newLocalExitRoot,
                                                 commitImportedBridgeExits))
            case None => Rejected(InvalidSignature)
            case Some(signer) =>
              if signer == f.trustedSequencer then Done(()) else Rejected(InvalidSigner(f.trustedSequencer, signer))
  {
  }

  /**
    The two encodings agree: what the packed parameters commit to, read at its offsets, is what the
    public values say, read from its words, and the key hash reads back as the eight words of the key.
   */
  lemma EncodingsAgree(f: FepInputs)
    requires AggchainParamsOf(f).Some?
    ensures var p := Unpack(AbiEncodePacked(AggchainParamsOf(f).value));
            var v := AbiDecode(AbiEncode(PublicValuesOf(f))).value;
            && p.l2PreRoot == v.l2PreRoot == ComputeL2PreRoot(f) == f.prevStateRoot
            && p.claimRoot == v.l2PostRoot == ComputeClaimRoot(f) == f.newStateRoot
            && p.claimBlockNum == v.l2BlockNumber == f.claimBlockNum
            && p.rollupConfigHash == v.rollupConfigHash == f.rollupConfigHash
            && p.rangeVkeyCommitment == v.multiBlockVkey == f.rangeVkeyCommitment
            && p.trustedSequencer == v.proverAddress == f.trustedSequencer && v.l1Head == f.l1Head
            && (p.optimisticMode <==> f.signatureOptimisticMode.Some?)
            && Words(FromBE(p.aggregationVkeyHash), 8) == f.aggregationVkeyHash
  {
    UnpackPacked(AggchainParamsOf(f).value);
    DecodeEncoded(PublicValuesOf(f));
    PackingIsExact(f.aggregationVkeyHash);
  }

  /** Everything that the packed parameters commit to is bound by them: only the optimistic signature itself is not. */
  lemma ParamsBindInputs(f: FepInputs, g: FepInputs)
    requires AggchainParamsOf(f).Some? && AggchainParamsOf(g).Some?
    requires AbiEncodePacked(AggchainParamsOf(f).value) == AbiEncodePacked(AggchainParamsOf(g).value)
    ensures ComputeL2PreRoot(f) == ComputeL2PreRoot(g) && ComputeClaimRoot(f) == ComputeClaimRoot(g)
    ensures f.claimBlockNum == g.claimBlockNum && f.rollupConfigHash == g.rollupConfigHash
    ensures f.trustedSequencer == g.trustedSequencer && f.rangeVkeyCommitment == g.rangeVkeyCommitment
    ensures f.aggregationVkeyHash == g.aggregationVkeyHash
    ensures f.signatureOptimisticMode.Some? == g.signatureOptimisticMode.Some?
  {
    PackedInjective(AggchainParamsOf(f).value, AggchainParamsOf(g).value);
    PackingIsInjective(f.aggregationVkeyHash, g.aggregationVkeyHash);
  }
}
