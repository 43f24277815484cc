/**
  The data that comes from outside the repository, and the outside code that the
  repository calls. Hashing, EVM execution, Merkle checking and signature recovery are
  fields of `Libraries`; every theorem holds for all values of those fields.
 */
module Foreign {
  import opened Results
  import opened Bytes

  /** State sketch of an L2 block, only ever given to the EVM. */
  type EvmSketch(==, !new)

  /** ECDSA signature, only ever given to signer recovery. */
  type Signature(==, !new)

  datatype MerkleProof = MerkleProof(siblings: seq<Digest>, root: Digest)

  datatype L1InfoTreeLeafInner =
    L1InfoTreeLeafInner(globalExitRoot: Digest, blockHash: Digest, timestamp: U64)

  datatype L1InfoTreeLeaf =
    L1InfoTreeLeaf(l1InfoTreeIndex: U32, rer: Digest, mer: Digest, inner: L1InfoTreeLeafInner)

  datatype GlobalIndexWithLeafHash = GlobalIndexWithLeafHash(globalIndex: U256, bridgeExitHash: Digest)

  /** The six view functions that the verifier calls. */
  datatype Call =
    | InsertedGERHashChain
    | RemovedGERHashChain
    | BridgeAddress
    | GetRoot
    | ClaimedGlobalIndexHashChain
    | UnsetGlobalIndexHashChain

  /** Public values of a client execution: what the call returned, and the block it ran on. */
  datatype CallOutput = CallOutput(contractOutput: seq<byte>, anchorHash: Digest)

  datatype Libraries = Libraries(
    combine: (Digest, Digest) -> Digest,
    combine3: (Digest, Digest, Digest) -> Digest,
    keccak256: seq<byte> -> Digest,
    sha256: seq<byte> -> Digest,
    initClient: EvmSketch -> bool,
    // sketch, callee, caller, calldata
    executeCall: (EvmSketch, Address, Address, Call) -> Option<CallOutput>,
    decodeWord: seq<byte> -> Option<Digest>,
    decodeAddress: seq<byte> -> Option<Address>,
    merkleVerify: (MerkleProof, Digest, U32) -> bool,
    leafHash: L1InfoTreeLeaf -> Digest,
    leafGer: L1InfoTreeLeaf -> Digest,
    exitCommitment: GlobalIndexWithLeafHash -> Digest,
    claimsCommitment: seq<GlobalIndexWithLeafHash> -> Digest,
    recoverSigner: (Signature, Digest) -> Option<Address>,
    // the aggregation key and the digest of the public values that an SP1 proof attests
    sp1ProofHolds: (seq<U32>, Digest) -> bool,
    usizeMax: nat
  )
}
