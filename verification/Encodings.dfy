/** The fixed-width encodings that several crates must agree on. */
module Encodings {
  import opened Results
  import opened Bytes

  // ----- AggregationProofPublicValues: seven ABI words -----

  datatype PublicValues = PublicValues(
    l1Head: Digest,
    l2PreRoot: Digest,
    l2PostRoot: Digest,
    l2BlockNumber: U64,
    rollupConfigHash: Digest,
    multiBlockVkey: Digest,
    proverAddress: Address
  )

  function AbiEncode(v: PublicValues): (r: seq<byte>)
    ensures |r| == 224
  {
    (v.l1Head + v.l2PreRoot + v.l2PostRoot) + ToBE(v.l2BlockNumber, 32)
    + (v.rollupConfigHash + v.multiBlockVkey) + (Zeros(12) + v.proverAddress)
  }

  datatype DecodeError = Overrun

  /** Word i of ABI-encoded bytes. */
  function WordAt(b: seq<byte>, i: nat): Digest
    requires 32 * (i + 1) <= |b|
  {
    b[32 * i..32 * (i + 1)]
  }

  /** Non-validating decoding: each field from its own bytes of its word, whatever the padding and trailing bytes. */
  function AbiDecode(b: seq<byte>): Result<PublicValues, DecodeError> {
    if |b| < 224 then Err(Overrun)
    else
      PowerWidths();
      FromBEBound(b[120..128]);
      Ok(PublicValues(WordAt(b, 0), WordAt(b, 1), WordAt(b, 2), FromBE(b[120..128]),
                      WordAt(b, 4), WordAt(b, 5), b[204..224]))
  }

  /** Seven words whose padding is zero. */
  ghost predicate Canonical(b: seq<byte>) {
    |b| == 224 && b[96..120] == Zeros(24) && b[192..204] == Zeros(12)
  }

  lemma EncodedFields(v: PublicValues)
    ensures var b := AbiEncode(v);
            && b[0..32] == v.l1Head && b[32..64] == v.l2PreRoot && b[64..96] == v.l2PostRoot
            && b[96..128] == ToBE(v.l2BlockNumber, 32) == Zeros(24) + ToBE(v.l2BlockNumber, 8)
            && b[128..160] == v.rollupConfigHash && b[160..192] == v.multiBlockVkey
            && b[192..204] == Zeros(12) && b[204..224] == v.proverAddress
  {
    PowerWidths();
    ZeroExtended(v.l2BlockNumber, 8, 24);
    EncodedLayout(v, AbiEncode(v));
  }

  lemma EncodedLayout(v: PublicValues, b: seq<byte>)
    requires b == AbiEncode(v)
    ensures b[0..32] == v.l1Head && b[32..64] == v.l2PreRoot && b[64..96] == v.l2PostRoot
    ensures b[96..128] == ToBE(v.l2BlockNumber, 32)
    ensures b[128..160] == v.rollupConfigHash && b[160..192] == v.multiBlockVkey
    ensures b[192..204] == Zeros(12) && b[204..224] == v.proverAddress
  {
    Layout(v.l1Head + v.l2PreRoot + v.l2PostRoot, ToBE(v.l2BlockNumber, 32),
           v.rollupConfigHash + v.multiBlockVkey, Zeros(12) + v.proverAddress, b);
    assert b[0..32] == b[0..96][0..32] && b[32..64] == b[0..96][32..64] && b[64..96] == b[0..96][64..96];
    assert b[128..160] == b[128..192][0..32] && b[160..192] == b[128..192][32..64];
    assert b[192..204] == b[192..224][0..12] && b[204..224] == b[192..224][12..32];
  }

  /** Where three words, one, two and one stand in their concatenation. */
  lemma Layout(three: seq<byte>, one: seq<byte>, two: seq<byte>, last: seq<byte>, b: seq<byte>)
    requires |three| == 96 && |one| == 32 && |two| == 64 && |last| == 32 && b == three + one + two + last
    ensures b[0..96] == three && b[96..128] == one && b[128..192] == two && b[192..224] == last
  {
  }

  /** Decoding undoes encoding, so the encoding is injective; and an encoding is canonical. */
  lemma DecodeEncoded(v: PublicValues)
    ensures AbiDecode(AbiEncode(v)) == Ok(v)
    ensures Canonical(AbiEncode(v))
  {
    var b := AbiEncode(v);
    EncodedFields(v);
    assert b[96..120] == b[96..128][..24] && b[120..128] == b[96..128][24..];
    PowerWidths();
    ReadWritten(v.l2BlockNumber, 8);
  }

  /** Encoding undoes decoding exactly on canonical bytes. */
  lemma EncodeDecoded(b: seq<byte>)
    requires AbiDecode(b).Ok?
    ensures AbiEncode(AbiDecode(b).value) == b <==> Canonical(b)
  {
    DecodeEncoded(AbiDecode(b).value);
    if Canonical(b) {
      Reassembled(b, AbiDecode(b).value);
    }
  }

  /** Without the condition: a trailing byte is dropped by decoding. */
  lemma TrailingByteIgnored(v: PublicValues)
    ensures var bytes := AbiEncode(v) + [0]; AbiDecode(bytes) == Ok(v) && AbiEncode(v) != bytes
  {
    DecodeEncoded(v);
    DecodedFromPrefix(AbiEncode(v), [0], AbiEncode(v) + [0]);
  }

  /** Decoding reads the first seven words only. */
  lemma DecodedFromPrefix(b: seq<byte>, more: seq<byte>, all: seq<byte>)
    requires |b| == 224 && all == b + more
    ensures AbiDecode(all) == AbiDecode(b)
  {
    assert all[..224] == b;
    assert WordAt(all, 0) == WordAt(b, 0) && WordAt(all, 1) == WordAt(b, 1) && WordAt(all, 2) == WordAt(b, 2);
    assert WordAt(all, 4) == WordAt(b, 4) && WordAt(all, 5) == WordAt(b, 5);
    assert all[120..128] == b[120..128] && all[204..224] == b[204..224];
  }

  lemma Reassembled(b: seq<byte>, v: PublicValues)
    requires Canonical(b) && AbiDecode(b) == Ok(v)
    ensures AbiEncode(v) == b
  {
    BlockNumberWord(b[96..128], v.l2BlockNumber);
    assert v.l1Head + v.l2PreRoot + v.l2PostRoot == b[0..96];
    assert v.rollupConfigHash + v.multiBlockVkey == b[128..192];
    assert Zeros(12) + v.proverAddress == b[192..204] + b[204..224] == b[192..224];
    SplitWords(b);
  }

  /** A word whose upper 24 bytes are zero is the wide form of the number in its lower eight. */
  lemma BlockNumberWord(word: seq<byte>, n: U64)
    requires |word| == 32 && word[..24] == Zeros(24) && FromBE(word[24..]) == n
    ensures ToBE(n, 32) == word
  {
    PowerWidths();
    ZeroExtended(n, 8, 24);
    WriteRead(word[24..]);
    assert word == word[..24] + word[24..];
  }

  lemma SplitWords(b: seq<byte>)
    requires |b| == 224
    ensures b == b[0..96] + b[96..128] + b[128..192] + b[192..224]
  {
  }

  // ----- AggchainParamsValues: packed mode -----

  datatype AggchainParams = AggchainParams(
    l2PreRoot: Digest,
    claimRoot: Digest,
    claimBlockNum: U256,
    rollupConfigHash: Digest,
    optimisticMode: bool,
    trustedSequencer: Address,
    rangeVkeyCommitment: Digest,
    aggregationVkeyHash: Digest
  )

  function PackedBool(b: bool): byte {
    if b then 1 else 0
  }

  function AbiEncodePacked(p: AggchainParams): (r: seq<byte>)
    ensures |r| == 213
  {
    p.l2PreRoot + p.claimRoot + ToBE(p.claimBlockNum, 32) + p.rollupConfigHash + [PackedBool(p.optimisticMode)]
    + p.trustedSequencer + p.rangeVkeyCommitment + p.aggregationVkeyHash
  }

  /** The eight fields at their offsets in the packed bytes. */
  function Unpack(b: seq<byte>): AggchainParams
    requires |b| == 213
  {
    PowerWidths();
    FromBEBound(b[64..96]);
    AggchainParams(b[0..32], b[32..64], FromBE(b[64..96]), b[96..128],
                   b[128] == 1, b[129..149], b[149..181], b[181..213])
  }

  /** Where each parameter stands in the packed bytes; a flag is one byte, 1 or 0. */
  lemma PackedFields(p: AggchainParams)
    ensures var b := AbiEncodePacked(p);
            && b[0..32] == p.l2PreRoot && b[32..64] == p.claimRoot && FromBE(b[64..96]) == p.claimBlockNum
            && b[96..128] == p.rollupConfigHash && b[128] == (if p.optimisticMode then 1 else 0)
            && b[129..149] == p.trustedSequencer && b[149..181] == p.rangeVkeyCommitment
            && b[181..213] == p.aggregationVkeyHash
  {
    PowerWidths();
    ReadWritten(p.claimBlockNum, 32);
    PackedLayout(p.l2PreRoot, p.claimRoot, ToBE(p.claimBlockNum, 32), p.rollupConfigHash,
                 [PackedBool(p.optimisticMode)], p.trustedSequencer, p.rangeVkeyCommitment, p.aggregationVkeyHash,
                 AbiEncodePacked(p));
  }

  /** The packed encoding loses none of its eight fields. */
  lemma UnpackPacked(p: AggchainParams)
    ensures Unpack(AbiEncodePacked(p)) == p
  {
    PackedFields(p);
  }

  /** Where eight packed fields stand in their concatenation. */
  lemma PackedLayout(pre: seq<byte>, claim: seq<byte>, block: seq<byte>, config: seq<byte>, mode: seq<byte>,
                     sequencer: seq<byte>, range: seq<byte>, aggregation: seq<byte>, b: seq<byte>)
    requires |pre| == |claim| == |block| == |config| == |range| == |aggregation| == 32
    requires |mode| == 1 && |sequencer| == 20
    requires b == pre + claim + block + config + mode + sequencer + range + aggregation
    ensures b[0..32] == pre && b[32..64] == claim && b[64..96] == block && b[96..128] == config
    ensures b[128] == mode[0] && b[129..149] == sequencer && b[149..181] == range && b[181..213] == aggregation
  {
    var low, high := pre + claim + block + config, mode + sequencer + range + aggregation;
    assert b == low + high;
    assert b[..128] == low && b[128..] == high;
    FourFields(pre, claim, block, config, low);
    FourFields(mode, sequencer, range, aggregation, high);
    assert b[0..32] == low[0..32] && b[32..64] == low[32..64] && b[64..96] == low[64..96] && b[96..128] == low[96..128];
    assert b[128] == high[0] && b[129..149] == high[1..21];
    assert b[149..181] == high[21..53] && b[181..213] == high[53..85];
  }

  lemma FourFields(a: seq<byte>, b: seq<byte>, c: seq<byte>, d: seq<byte>, all: seq<byte>)
    requires all == a + b + c + d
    ensures all[0..|a|] == a && all[|a|..|a| + |b|] == b
    ensures all[|a| + |b|..|a| + |b| + |c|] == c && all[|a| + |b| + |c|..|a| + |b| + |c| + |d|] == d
  {
  }

  lemma PackedInjective(p: AggchainParams, q: AggchainParams)
    requires AbiEncodePacked(p) == AbiEncodePacked(q)
    ensures p == q
  {
    UnpackPacked(p);
    UnpackPacked(q);
  }

  // ----- CustomChainData: three ABI words -----

  type VKeySelector = s: seq<byte> | |s| == 4 witness seq(4, _ => 0)

  /** `VKeySelector::new`: the program in the high half of a 32-bit word, the type in the low half. */
  function Selector(program: U16, aggchainType: U16): VKeySelector {
    ToBE(program * 0x1_0000 + aggchainType, 4)
  }

  /** The selector is the two halves side by side, and reads back as them. */
  lemma SelectorDecodes(program: U16, aggchainType: U16)
    ensures Selector(program, aggchainType) == ToBE(program, 2) + ToBE(aggchainType, 2)
    ensures FromBE(Selector(program, aggchainType)[..2]) == program
    ensures FromBE(Selector(program, aggchainType)[2..]) == aggchainType
  {
    var b := ToBE(program, 2) + ToBE(aggchainType, 2);
    PowerWidths();
    SideBySide(program, aggchainType, 2, b);
    WrittenAs(program * 0x1_0000 + aggchainType, b);
  }

  /** A `bytes4` is left-aligned in its word. */
  function CustomChainData(selector: VKeySelector, outputRoot: Digest, l2BlockNumber: U64): (r: seq<byte>)
    ensures |r| == 96
  {
    (selector + Zeros(28)) + outputRoot + ToBE(l2BlockNumber, 32)
  }

  /** Major version of the aggchain-proof-program package, and the type of chains with full execution proofs. */
  const AGGCHAIN_PROOF_PROGRAM_VERSION: U16 := 7
  const AGGCHAIN_TYPE: U16 := 1

  function ComputeCustomChainData(outputRoot: Digest, l2BlockNumber: U64): (r: seq<byte>)
    ensures |r| == 96
  {
    CustomChainData(Selector(AGGCHAIN_PROOF_PROGRAM_VERSION, AGGCHAIN_TYPE), outputRoot, l2BlockNumber)
  }

  /** The packed parameters with output root and block number taken from custom chain data. */
  function Repack(p: AggchainParams, customChainData: seq<byte>): AggchainParams
    requires |customChainData| == 96
  {
    PowerWidths();
    FromBEBound(customChainData[64..96]);
    p.(claimRoot := customChainData[32..64], claimBlockNum := FromBE(customChainData[64..96]))
  }

  lemma CustomChainDataFields(selector: VKeySelector, outputRoot: Digest, l2BlockNumber: U64)
    ensures var d := CustomChainData(selector, outputRoot, l2BlockNumber);
            && d[..4] == selector && d[4..32] == Zeros(28)
            && d[32..64] == outputRoot && d[64..96] == ToBE(l2BlockNumber, 32)
            && FromBE(d[64..96]) == l2BlockNumber
  {
    PowerWidths();
    ReadWritten(l2BlockNumber, 32);
    var d := CustomChainData(selector, outputRoot, l2BlockNumber);
    assert d[64..96] == ToBE(l2BlockNumber, 32);
  }

  /**
    Repacking with the output root and block number of custom chain data reproduces the packed
    parameters exactly when the block number, truncated there to 32 bits, lost nothing.
   */
  lemma RepackAgrees(p: AggchainParams, customChainData: seq<byte>, l2BlockNumber: U64)
    requires p.claimBlockNum == l2BlockNumber % TWO32
    requires |customChainData| == 96 && customChainData[32..64] == p.claimRoot
    requires FromBE(customChainData[64..96]) == l2BlockNumber
    ensures AbiEncodePacked(Repack(p, customChainData)) == AbiEncodePacked(p) <==> l2BlockNumber < TWO32
  {
    var q := Repack(p, customChainData);
    if l2BlockNumber < TWO32 {
      assert q == p;
    } else if AbiEncodePacked(q) == AbiEncodePacked(p) {
      PackedInjective(q, p);
    }
  }

  /** Without the condition: with end block 2^32 the guest commits to block 0, and custom chain data says 2^32. */
  lemma EndBlockTruncated(p: AggchainParams)
    requires p.claimBlockNum == TWO32 % TWO32
    ensures var q := Repack(p, ComputeCustomChainData(p.claimRoot, TWO32));
            p.claimBlockNum == 0 && q.claimBlockNum == TWO32 && AbiEncodePacked(q) != AbiEncodePacked(p)
  {
    CustomChainDataFields(Selector(AGGCHAIN_PROOF_PROGRAM_VERSION, AGGCHAIN_TYPE), p.claimRoot, TWO32);
    RepackAgrees(p, ComputeCustomChainData(p.claimRoot, TWO32), TWO32);
  }

  /** The custom chain data of a proof: program 7 and type 1, then the root, then the block number. */
  lemma ComputedCustomChainData(outputRoot: Digest, l2BlockNumber: U64)
    ensures var d := ComputeCustomChainData(outputRoot, l2BlockNumber);
            && d[..4] == [0, 7, 0, 1] && d[4..32] == Zeros(28) && d[32..64] == outputRoot
            && d[64..88] == Zeros(24) && FromBE(d[88..96]) == l2BlockNumber
  {
    var d := ComputeCustomChainData(outputRoot, l2BlockNumber);
    CustomChainDataFields(Selector(AGGCHAIN_PROOF_PROGRAM_VERSION, AGGCHAIN_TYPE), outputRoot, l2BlockNumber);
    ProofSelector();
    BlockNumberBytes(l2BlockNumber, d[64..96]);
    assert d[64..88] == d[64..96][..24] && d[88..96] == d[64..96][24..];
  }

  lemma ProofSelector()
    ensures Selector(AGGCHAIN_PROOF_PROGRAM_VERSION, AGGCHAIN_TYPE) == [0, 7, 0, 1]
  {
    SelectorDecodes(AGGCHAIN_PROOF_PROGRAM_VERSION, AGGCHAIN_TYPE);
    SmallHalf(7);
    SmallHalf(1);
  }

  /** A 64-bit number stands in the last eight bytes of its word. */
  lemma BlockNumberBytes(n: U64, word: seq<byte>)
    requires word == ToBE(n, 32)
    ensures word[..24] == Zeros(24) && FromBE(word[24..]) == n
  {
    PowerWidths();
    ZeroExtended(n, 8, 24);
    ReadWritten(n, 8);
    assert word[24..] == ToBE(n, 8);
  }

  lemma SmallHalf(n: nat)
    requires n < 256
    ensures ToBE(n, 2) == [0, n]
  {
    assert ToBE(n, 1) == ToBE(0, 0) + [n];
    assert ToBE(0, 1) == ToBE(0, 0) + [0];
  }
}
