/** What acceptance by the bridge verifier guarantees. */
module BridgeTheorems {
  import opened Results
  import opened Bytes
  import opened Foreign
  import opened HashChain
  import opened CountingFilter
  import opened StaticCall
  import opened BridgeConstraints
  import Registry

  /** Acceptance without the calls: a replayed chain already needs those that fetch its two values. */
  ghost predicate Sound(lib: Libraries, x: BridgeConstraintsInput) {
    && (forall t :: Passes(lib, x, Replayed(t)))
    && Passes(lib, x, ExitRootMatches)
    && Passes(lib, x, ClaimsCounted) && Passes(lib, x, CommitmentMatches)
    && Passes(lib, x, GersCounted) && Passes(lib, x, GersMatch) && Passes(lib, x, GersProven)
  }

  lemma SoundIsAcceptable(lib: Libraries, x: BridgeConstraintsInput)
    requires Sound(lib, x)
    ensures Acceptable(lib, x)
  {
    forall c | c in ORDER
      ensures Passes(lib, x, c)
    {
      match c
      case Called(PrevHashChain(t)) => assert Passes(lib, x, Replayed(t));
      case Called(NewHashChain(t)) => assert Passes(lib, x, Replayed(t));
      case Called(BridgeAddressStage) =>
      case Called(NewLer) =>
      case Replayed(t) => assert Passes(lib, x, Replayed(t));
      case _ => assert c == ExitRootMatches || c == ClaimsCounted || c == CommitmentMatches
                     || c == GersCounted || c == GersMatch || c == GersProven;
    }
  }

  lemma AcceptableMeans(lib: Libraries, x: BridgeConstraintsInput)
    ensures Acceptable(lib, x) <==> Sound(lib, x)
  {
    if Sound(lib, x) {
      SoundIsAcceptable(lib, x);
    }
    InOrder();
  }

  lemma AcceptedRootPasses(lib: Libraries, x: BridgeConstraintsInput)
    requires Acceptable(lib, x)
    ensures Passes(lib, x, ExitRootMatches)
  {
    InOrder();
  }

  lemma AcceptedListsPass(lib: Libraries, x: BridgeConstraintsInput)
    requires Acceptable(lib, x)
    ensures Passes(lib, x, CommitmentMatches) && Passes(lib, x, GersMatch) && Passes(lib, x, GersProven)
  {
    InOrder();
  }

  lemma InOrder()
    ensures forall t :: Replayed(t) in ORDER
    ensures ExitRootMatches in ORDER && ClaimsCounted in ORDER && CommitmentMatches in ORDER
    ensures GersCounted in ORDER && GersMatch in ORDER && GersProven in ORDER
  {
    forall t
      ensures Replayed(t) in ORDER
    {
      match t
      case InsertedGER => assert ORDER[2] == Replayed(t);
      case RemovedGER => assert ORDER[5] == Replayed(t);
      case ClaimedGlobalIndex => assert ORDER[9] == Replayed(t);
      case UnsetGlobalIndex => assert ORDER[12] == Replayed(t);
    }
    assert ORDER[14] == ExitRootMatches && ORDER[15] == ClaimsCounted && ORDER[16] == CommitmentMatches;
    assert ORDER[17] == GersCounted && ORDER[18] == GersMatch && ORDER[19] == GersProven;
  }

  // ----- Binding -----

  /** Two inputs about the same two blocks of one chain, each with sketches and a caller of its own. */
  ghost predicate SameBlocks(lib: Libraries, x: BridgeConstraintsInput, y: BridgeConstraintsInput) {
    var w, v := x.bridgeWitness, y.bridgeWitness;
    && x.gerAddr == y.gerAddr
    && x.prevL2BlockHash == y.prevL2BlockHash && x.newL2BlockHash == y.newL2BlockHash
    && AnswerAlike(lib, w.prevL2BlockSketch, w.callerAddress, v.prevL2BlockSketch, v.callerAddress)
    && AnswerAlike(lib, w.newL2BlockSketch, w.callerAddress, v.newL2BlockSketch, v.callerAddress)
  }

  lemma AcceptedChainPasses(lib: Libraries, x: BridgeConstraintsInput, t: HashChainType)
    requires Acceptable(lib, x)
    ensures Passes(lib, x, Replayed(t))
    ensures PrevValue(lib, x, t).Some? && NewValue(lib, x, t).Some?
  {
    InOrder();
  }

  lemma SameBridge(lib: Libraries, x: BridgeConstraintsInput, y: BridgeConstraintsInput)
    requires Acceptable(lib, x) && Acceptable(lib, y) && SameBlocks(lib, x, y)
    ensures BridgeAt(lib, x).Some? && BridgeAt(lib, x) == BridgeAt(lib, y)
  {
    AcceptedChainPasses(lib, x, ClaimedGlobalIndex);
    AcceptedChainPasses(lib, y, ClaimedGlobalIndex);
    var w, v := x.bridgeWitness, y.bridgeWitness;
    AnchoredAlike(lib, x.gerAddr, BridgeAddress, lib.decodeAddress, x.newL2BlockHash,
                  w.newL2BlockSketch, w.callerAddress, v.newL2BlockSketch, v.callerAddress);
  }

  /** Whatever the sketches, accepted inputs about the same blocks read the same values of a chain. */
  lemma SameChainValues(lib: Libraries, x: BridgeConstraintsInput, y: BridgeConstraintsInput, t: HashChainType)
    requires Acceptable(lib, x) && Acceptable(lib, y) && SameBlocks(lib, x, y)
    ensures PrevValue(lib, x, t).Some? && PrevValue(lib, x, t) == PrevValue(lib, y, t)
    ensures NewValue(lib, x, t).Some? && NewValue(lib, x, t) == NewValue(lib, y, t)
  {
    SameBridge(lib, x, y);
    AcceptedChainPasses(lib, x, t);
    AcceptedChainPasses(lib, y, t);
    var w, v, holder := x.bridgeWitness, y.bridgeWitness, HolderOf(lib, x, t).value;
    AnchoredAlike(lib, holder, CalldataOf(t), lib.decodeWord, x.prevL2BlockHash,
                  w.prevL2BlockSketch, w.callerAddress, v.prevL2BlockSketch, v.callerAddress);
    AnchoredAlike(lib, holder, CalldataOf(t), lib.decodeWord, x.newL2BlockHash,
                  w.newL2BlockSketch, w.callerAddress, v.newL2BlockSketch, v.callerAddress);
  }

  lemma SameExitRoot(lib: Libraries, x: BridgeConstraintsInput, y: BridgeConstraintsInput)
    requires Acceptable(lib, x) && Acceptable(lib, y) && SameBlocks(lib, x, y)
    ensures x.newLocalExitRoot == y.newLocalExitRoot
  {
    SameBridge(lib, x, y);
    AcceptedRootPasses(lib, x);
    AcceptedRootPasses(lib, y);
    var w, v := x.bridgeWitness, y.bridgeWitness;
    AnchoredAlike(lib, BridgeAt(lib, x).value, GetRoot, lib.decodeWord, x.newL2BlockHash,
                  w.newL2BlockSketch, w.callerAddress, v.newL2BlockSketch, v.callerAddress);
  }

  lemma SameValues(lib: Libraries, x: BridgeConstraintsInput, y: BridgeConstraintsInput, t: HashChainType)
    requires Acceptable(lib, x) && Acceptable(lib, y) && SameBlocks(lib, x, y)
    ensures PrevValue(lib, x, t).Some?
    ensures Replay(lib.combine, PrevValue(lib, x, t).value, Elements(lib, x.bridgeWitness, t))
         == Replay(lib.combine, PrevValue(lib, x, t).value, Elements(lib, y.bridgeWitness, t))
  {
    SameChainValues(lib, x, y, t);
    AcceptedChainPasses(lib, x, t);
    AcceptedChainPasses(lib, y, t);
  }

  /** What relates the lists that two accepted inputs give for one hash chain. */
  ghost function ChainEvidence(lib: Libraries, x: BridgeConstraintsInput, y: BridgeConstraintsInput, t: HashChainType)
    : (e: Evidence)
    requires Acceptable(lib, x) && Acceptable(lib, y) && SameBlocks(lib, x, y)
    ensures PrevValue(lib, x, t).Some?
    ensures Explains(lib.combine, PrevValue(lib, x, t).value,
                     Elements(lib, x.bridgeWitness, t), Elements(lib, y.bridgeWitness, t), e)
  {
    SameValues(lib, x, y, t);
    Bind(lib.combine, PrevValue(lib, x, t).value,
         Elements(lib, x.bridgeWitness, t), Elements(lib, y.bridgeWitness, t))
  }

  lemma IndexBytesInjective(a: seq<U256>, b: seq<U256>)
    requires IndexBytes(a) == IndexBytes(b)
    ensures a == b
  {
    assert |IndexBytes(a)| == |IndexBytes(b)|;
    forall i | 0 <= i < |a|
      ensures a[i] == b[i]
    {
      assert IndexBytes(a)[i] == IndexBytes(b)[i];
      PowerWidths();
      WrittenInjective(a[i], b[i], 32);
    }
  }

  /** Two lists of claims with equal leaf commitments differ only at a collision of the leaf commitment. */
  function DifferentClaim(lib: Libraries, a: seq<GlobalIndexWithLeafHash>, b: seq<GlobalIndexWithLeafHash>)
    : (r: Option<nat>)
    requires Commitments(lib, a) == Commitments(lib, b)
    ensures |a| == |b|
    ensures r.None? ==> a == b
    ensures r.Some? ==> r.value < |a| && a[r.value] != b[r.value]
                        && lib.exitCommitment(a[r.value]) == lib.exitCommitment(b[r.value])
    decreases |a|
  {
    assert |Commitments(lib, a)| == |Commitments(lib, b)|;
    if a == [] then None
    else
      var n := |a| - 1;
      assert Commitments(lib, a)[n] == Commitments(lib, b)[n];
      if a[n] != b[n] then Some(n)
      else
        assert Commitments(lib, a[..n]) == Commitments(lib, a)[..n];
        assert Commitments(lib, b[..n]) == Commitments(lib, b)[..n];
        assert a == a[..n] + [a[n]] && b == b[..n] + [b[n]];
        DifferentClaim(lib, a[..n], b[..n])
  }

  /** Two accepted inputs for the same blocks keep the same global exit roots, or exhibit a cycle or a collision. */
  lemma AcceptedGersAgree(lib: Libraries, x: BridgeConstraintsInput, y: BridgeConstraintsInput)
    requires Acceptable(lib, x) && Acceptable(lib, y) && SameBlocks(lib, x, y)
    ensures ChainEvidence(lib, x, y, InsertedGER).Same? && ChainEvidence(lib, x, y, RemovedGER).Same?
        ==> GersOf(lib, x.bridgeWitness.insertedGers) == GersOf(lib, y.bridgeWitness.insertedGers)
  {
    AcceptedListsPass(lib, x);
    AcceptedListsPass(lib, y);
  }

  /**
    Two accepted inputs for the same blocks have the same exit root; and unless they exhibit a
    cycle or a collision of the hash, or a collision of the leaf commitment, they keep the same
    claims and commit to the same imported exits.
   */
  lemma AcceptedClaimsAgree(lib: Libraries, x: BridgeConstraintsInput, y: BridgeConstraintsInput)
    requires Acceptable(lib, x) && Acceptable(lib, y) && SameBlocks(lib, x, y)
    ensures x.newLocalExitRoot == y.newLocalExitRoot
    ensures ChainEvidence(lib, x, y, UnsetGlobalIndex).Same?
        ==> x.bridgeWitness.globalIndicesUnset == y.bridgeWitness.globalIndicesUnset
    ensures ChainEvidence(lib, x, y, ClaimedGlobalIndex).Same? && ChainEvidence(lib, x, y, UnsetGlobalIndex).Same?
            && DifferentClaim(lib, x.bridgeWitness.bridgeExitsClaimed, y.bridgeWitness.bridgeExitsClaimed).None?
        ==> && RemainingClaims(x.bridgeWitness) == RemainingClaims(y.bridgeWitness)
            && x.commitImportedBridgeExits == y.commitImportedBridgeExits
  {
    SameExitRoot(lib, x, y);
    AcceptedListsPass(lib, x);
    AcceptedListsPass(lib, y);
    if ChainEvidence(lib, x, y, UnsetGlobalIndex).Same? {
      IndexBytesInjective(x.bridgeWitness.globalIndicesUnset, y.bridgeWitness.globalIndicesUnset);
    }
  }

  // ----- Composition of adjacent ranges -----

  /** The second input starts in the state where the first ends: with the values of the four chains. */
  ghost predicate Adjacent(lib: Libraries, x: BridgeConstraintsInput, y: BridgeConstraintsInput) {
    && x.gerAddr == y.gerAddr && x.l1InfoRoot == y.l1InfoRoot
    && x.bridgeWitness.callerAddress == y.bridgeWitness.callerAddress
    && BridgeAt(lib, x) == BridgeAt(lib, y)
    && forall t :: NewValue(lib, x, t) == PrevValue(lib, y, t)
  }

  /** The second input is about the blocks after those of the first, on the same contracts and under one L1 root. */
  ghost predicate SharesBlock(lib: Libraries, x: BridgeConstraintsInput, y: BridgeConstraintsInput) {
    var w, v := x.bridgeWitness, y.bridgeWitness;
    && x.gerAddr == y.gerAddr && x.l1InfoRoot == y.l1InfoRoot && w.callerAddress == v.callerAddress
    && BridgeAt(lib, x) == BridgeAt(lib, y)
    && x.newL2BlockHash == y.prevL2BlockHash
    && AnswerAlike(lib, w.newL2BlockSketch, w.callerAddress, v.prevL2BlockSketch, v.callerAddress)
  }

  /** Accepted inputs that share a block, each with a sketch of its own, are adjacent. */
  lemma SharedBlockIsAdjacent(lib: Libraries, x: BridgeConstraintsInput, y: BridgeConstraintsInput)
    requires Acceptable(lib, x) && Acceptable(lib, y) && SharesBlock(lib, x, y)
    ensures Adjacent(lib, x, y)
  {
    forall t
      ensures NewValue(lib, x, t) == PrevValue(lib, y, t)
    {
      AcceptedChainPasses(lib, x, t);
      AcceptedChainPasses(lib, y, t);
      var w, v := x.bridgeWitness, y.bridgeWitness;
      AnchoredAlike(lib, HolderOf(lib, x, t).value, CalldataOf(t), lib.decodeWord, x.newL2BlockHash,
                    w.newL2BlockSketch, w.callerAddress, v.prevL2BlockSketch, v.callerAddress);
    }
  }

  /** The input for both ranges: lists appended, and a commitment to the claims that each range kept. */
  ghost function Join(lib: Libraries, x: BridgeConstraintsInput, y: BridgeConstraintsInput): BridgeConstraintsInput {
    var w, v := x.bridgeWitness, y.bridgeWitness;
    BridgeConstraintsInput(
      x.gerAddr, x.prevL2BlockHash, y.newL2BlockHash, y.newLocalExitRoot, x.l1InfoRoot,
      lib.claimsCommitment(RemainingClaims(w) + RemainingClaims(v)),
      BridgeWitness(w.insertedGers + v.insertedGers, w.rawInsertedGers + v.rawInsertedGers,
                    w.removedGers + v.removedGers, w.bridgeExitsClaimed + v.bridgeExitsClaimed,
                    w.globalIndicesUnset + v.globalIndicesUnset, w.prevL2BlockSketch, v.newL2BlockSketch,
                    w.callerAddress))
  }

  lemma JoinedElements(lib: Libraries, x: BridgeConstraintsInput, y: BridgeConstraintsInput, t: HashChainType)
    ensures Elements(lib, Join(lib, x, y).bridgeWitness, t)
         == Elements(lib, x.bridgeWitness, t) + Elements(lib, y.bridgeWitness, t)
  {
    var w, v := x.bridgeWitness, y.bridgeWitness;
    assert Commitments(lib, w.bridgeExitsClaimed + v.bridgeExitsClaimed)
        == Commitments(lib, w.bridgeExitsClaimed) + Commitments(lib, v.bridgeExitsClaimed);
    assert IndexBytes(w.globalIndicesUnset + v.globalIndicesUnset)
        == IndexBytes(w.globalIndicesUnset) + IndexBytes(v.globalIndicesUnset);
  }

  /** The four hash chains of two adjacent ranges always replay as one. */
  lemma JoinedChainReplays(lib: Libraries, x: BridgeConstraintsInput, y: BridgeConstraintsInput,
                           z: BridgeConstraintsInput, t: HashChainType)
    requires z == Join(lib, x, y) && Adjacent(lib, x, y)
    requires Passes(lib, x, Replayed(t)) && Passes(lib, y, Replayed(t))
    ensures Passes(lib, z, Replayed(t))
  {
    assert BridgeAt(lib, z) == BridgeAt(lib, y);
    assert HolderOf(lib, x, t) == HolderOf(lib, y, t) == HolderOf(lib, z, t);
    assert PrevValue(lib, z, t) == PrevValue(lib, x, t);
    assert NewValue(lib, x, t) == PrevValue(lib, y, t);
    assert NewValue(lib, z, t) == NewValue(lib, y, t);
    JoinedElements(lib, x, y, t);
    ReplayAppend(lib.combine, PrevValue(lib, x, t).value,
                 Elements(lib, x.bridgeWitness, t), Elements(lib, y.bridgeWitness, t));
  }

  lemma JoinedRest(lib: Libraries, x: BridgeConstraintsInput, y: BridgeConstraintsInput, z: BridgeConstraintsInput)
    requires z == Join(lib, x, y) && Adjacent(lib, x, y)
    requires Passes(lib, y, ExitRootMatches) && Passes(lib, x, GersProven) && Passes(lib, y, GersProven)
    ensures Passes(lib, z, ExitRootMatches) && Passes(lib, z, GersProven)
    ensures GersOf(lib, z.bridgeWitness.insertedGers)
         == GersOf(lib, x.bridgeWitness.insertedGers) + GersOf(lib, y.bridgeWitness.insertedGers)
  {
    assert BridgeAt(lib, z) == BridgeAt(lib, y);
    assert ExitRootAt(lib, z) == ExitRootAt(lib, y);
    var a, b := x.bridgeWitness.insertedGers, y.bridgeWitness.insertedGers;
    assert GersOf(lib, a + b) == GersOf(lib, a) + GersOf(lib, b);
  }

  lemma JoinedChains(lib: Libraries, x: BridgeConstraintsInput, y: BridgeConstraintsInput, z: BridgeConstraintsInput)
    requires z == Join(lib, x, y) && Adjacent(lib, x, y)
    requires forall t :: Passes(lib, x, Replayed(t)) && Passes(lib, y, Replayed(t))
    ensures forall t :: Passes(lib, z, Replayed(t))
  {
    forall t
      ensures Passes(lib, z, Replayed(t))
    {
      JoinedChainReplays(lib, x, y, z, t);
    }
  }

  lemma JoinedSound(lib: Libraries, x: BridgeConstraintsInput, y: BridgeConstraintsInput, z: BridgeConstraintsInput)
    requires z == Join(lib, x, y) && Adjacent(lib, x, y)
    requires forall t :: Passes(lib, x, Replayed(t)) && Passes(lib, y, Replayed(t))
    requires Passes(lib, y, ExitRootMatches) && Passes(lib, x, GersProven) && Passes(lib, y, GersProven)
    requires Passes(lib, x, GersMatch) && Passes(lib, y, GersMatch)
    ensures Sound(lib, z)
       <==> (&& !Overflows(z.bridgeWitness.globalIndicesUnset, lib.usizeMax)
             && !Overflows(z.bridgeWitness.removedGers, lib.usizeMax)
             && lib.claimsCommitment(RemainingClaims(z.bridgeWitness)) == z.commitImportedBridgeExits
             && RemainingGers(z.bridgeWitness) == RemainingGers(x.bridgeWitness) + RemainingGers(y.bridgeWitness))
  {
    JoinedChains(lib, x, y, z);
    JoinedRest(lib, x, y, z);
  }

  /** What joining two accepted adjacent ranges still depends on: that filtering commutes with appending. */
  lemma JoinAcceptableIff(lib: Libraries, x: BridgeConstraintsInput, y: BridgeConstraintsInput,
                          z: BridgeConstraintsInput)
    requires Acceptable(lib, x) && Acceptable(lib, y) && Adjacent(lib, x, y) && z == Join(lib, x, y)
    ensures Acceptable(lib, z)
       <==> (&& !Overflows(z.bridgeWitness.globalIndicesUnset, lib.usizeMax)
             && !Overflows(z.bridgeWitness.removedGers, lib.usizeMax)
             && lib.claimsCommitment(RemainingClaims(z.bridgeWitness)) == z.commitImportedBridgeExits
             && RemainingGers(z.bridgeWitness) == RemainingGers(x.bridgeWitness) + RemainingGers(y.bridgeWitness))
  {
    AcceptableMeans(lib, x);
    AcceptableMeans(lib, y);
    AcceptableMeans(lib, z);
    JoinedSound(lib, x, y, z);
  }

  /** The lists of two ranges do not interfere, and their removals can be counted. */
  ghost predicate Independent(lib: Libraries, w: BridgeWitness, v: BridgeWitness) {
    && Separate(w.removedGers, w.rawInsertedGers, v.removedGers, v.rawInsertedGers, Itself)
    && Separate(w.globalIndicesUnset, w.bridgeExitsClaimed, v.globalIndicesUnset, v.bridgeExitsClaimed, IndexOf)
    && |w.removedGers| + |v.removedGers| <= lib.usizeMax
    && |w.globalIndicesUnset| + |v.globalIndicesUnset| <= lib.usizeMax
  }

  /** Adjacent ranges compose: the input for both ranges is accepted whenever the two inputs are. */
  lemma AdjacentRangesCompose(lib: Libraries, x: BridgeConstraintsInput, y: BridgeConstraintsInput,
                              z: BridgeConstraintsInput)
    requires Acceptable(lib, x) && Acceptable(lib, y) && Adjacent(lib, x, y) && z == Join(lib, x, y)
    requires Independent(lib, x.bridgeWitness, y.bridgeWitness)
    ensures Acceptable(lib, z)
  {
    var w, v := x.bridgeWitness, y.bridgeWitness;
    JoinAcceptableIff(lib, x, y, z);
    NoOverflowWhenLengthFits(w.removedGers + v.removedGers, lib.usizeMax);
    NoOverflowWhenLengthFits(w.globalIndicesUnset + v.globalIndicesUnset, lib.usizeMax);
    assert multiset(w.removedGers + v.removedGers) == multiset(w.removedGers) + multiset(v.removedGers);
    assert multiset(w.globalIndicesUnset + v.globalIndicesUnset)
        == multiset(w.globalIndicesUnset) + multiset(v.globalIndicesUnset);
    JoinedRanges(multiset(w.removedGers), w.rawInsertedGers, multiset(v.removedGers), v.rawInsertedGers, Itself);
    JoinedRanges(multiset(w.globalIndicesUnset), w.bridgeExitsClaimed,
                 multiset(v.globalIndicesUnset), v.bridgeExitsClaimed, IndexOf);
  }

  /**
    For the roots the condition is needed, unless a root is inserted twice in the two ranges: joining
    accepted adjacent ranges is then accepted only when their insertions and removals do not interfere.
   */
  lemma JoinedRootsSeparate(lib: Libraries, x: BridgeConstraintsInput, y: BridgeConstraintsInput,
                            z: BridgeConstraintsInput)
    requires Acceptable(lib, x) && Acceptable(lib, y) && Adjacent(lib, x, y) && z == Join(lib, x, y)
    requires Acceptable(lib, z) && Distinct(z.bridgeWitness.rawInsertedGers)
    ensures Separate(x.bridgeWitness.removedGers, x.bridgeWitness.rawInsertedGers,
                     y.bridgeWitness.removedGers, y.bridgeWitness.rawInsertedGers, Itself)
  {
    var w, v := x.bridgeWitness, y.bridgeWitness;
    JoinAcceptableIff(lib, x, y, z);
    assert multiset(w.removedGers + v.removedGers) == multiset(w.removedGers) + multiset(v.removedGers);
    JoinedDistinctRanges(multiset(w.removedGers), w.rawInsertedGers, multiset(v.removedGers), v.rawInsertedGers,
                         Itself);
  }

  /** A run of ranges, the latest last. */
  datatype Ranges = One(x: BridgeConstraintsInput) | More(earlier: Ranges, y: BridgeConstraintsInput)

  function Latest(r: Ranges): BridgeConstraintsInput {
    if r.One? then r.x else r.y
  }

  /** One input for a whole run. */
  ghost function JoinAll(lib: Libraries, r: Ranges): BridgeConstraintsInput {
    match r
    case One(x) => x
    case More(earlier, y) => Join(lib, JoinAll(lib, earlier), y)
  }

  /** Each range is accepted, starts where the one before ends, and is independent of all those before. */
  ghost predicate Consecutive(lib: Libraries, r: Ranges) {
    match r
    case One(x) => Acceptable(lib, x)
    case More(earlier, y) =>
      && Consecutive(lib, earlier) && Acceptable(lib, y)
      && Adjacent(lib, Latest(earlier), y)
      && Independent(lib, JoinAll(lib, earlier).bridgeWitness, y.bridgeWitness)
  }

  /** What follows the latest range of a run follows the run. */
  lemma {:induction false} AdjacentToAll(lib: Libraries, r: Ranges, y: BridgeConstraintsInput)
    requires Consecutive(lib, r) && Adjacent(lib, Latest(r), y)
    ensures Adjacent(lib, JoinAll(lib, r), y)
  {
    if r.More? {
      AdjacentToAll(lib, r.earlier, r.y);
      AdjacentToJoin(lib, JoinAll(lib, r.earlier), r.y, JoinAll(lib, r), y);
    }
  }

  lemma AdjacentToJoin(lib: Libraries, x: BridgeConstraintsInput, m: BridgeConstraintsInput,
                       z: BridgeConstraintsInput, y: BridgeConstraintsInput)
    requires z == Join(lib, x, m) && Adjacent(lib, x, m) && Adjacent(lib, m, y)
    ensures Adjacent(lib, z, y)
  {
    assert BridgeAt(lib, z) == BridgeAt(lib, m);
  }

  /** A run of accepted adjacent ranges, of any length, is accepted as one range. */
  lemma {:induction false} RunsCompose(lib: Libraries, r: Ranges)
    ensures Consecutive(lib, r) ==> Acceptable(lib, JoinAll(lib, r))
  {
    if r.More? && Consecutive(lib, r) {
      RunsCompose(lib, r.earlier);
      AdjacentToAll(lib, r.earlier, r.y);
      AdjacentRangesCompose(lib, JoinAll(lib, r.earlier), r.y, JoinAll(lib, r));
    }
  }

  // ----- The accepted lists against the contracts -----

  /** The chains of inserted and removed roots absorbed the calls that the GER contract received. */
  ghost predicate ChainsRecord(lib: Libraries, x: BridgeConstraintsInput, run: Registry.State<Digest, Digest>) {
    && PrevValue(lib, x, InsertedGER).Some? && PrevValue(lib, x, RemovedGER).Some?
    && NewValue(lib, x, InsertedGER) == Some(Replay(lib.combine, PrevValue(lib, x, InsertedGER).value, run.inserted))
    && NewValue(lib, x, RemovedGER) == Some(Replay(lib.combine, PrevValue(lib, x, RemovedGER).value, run.removed))
  }

  /**
    End to end: when the two on-chain chains recorded a run of the GER contract, an accepted
    witness either exhibits a cycle or a collision of the hash, or its proven global exit roots
    are the live insertions of roots not set before the range, in insertion order.
   */
  lemma AcceptedGersAreLive(lib: Libraries, x: BridgeConstraintsInput, before: set<Digest>,
                            events: seq<Registry.Event<Digest, Digest>>)
    requires Acceptable(lib, x)
    requires Registry.Execute(before, events, Itself).Some?
    requires ChainsRecord(lib, x, Registry.Execute(before, events, Itself).value)
    ensures var run := Registry.Execute(before, events, Itself).value;
            var p, q := PrevValue(lib, x, InsertedGER).value, PrevValue(lib, x, RemovedGER).value;
            && Replay(lib.combine, p, x.bridgeWitness.rawInsertedGers) == Replay(lib.combine, p, run.inserted)
            && Replay(lib.combine, q, x.bridgeWitness.removedGers) == Replay(lib.combine, q, run.removed)
            && (Bind(lib.combine, p, x.bridgeWitness.rawInsertedGers, run.inserted).Same?
                && Bind(lib.combine, q, x.bridgeWitness.removedGers, run.removed).Same?
                ==> && GersOf(lib, x.bridgeWitness.insertedGers) == Registry.Outside(run.live, Itself, before)
                    && (GersOf(lib, x.bridgeWitness.insertedGers) == run.live
                        <==> forall g :: g in run.live ==> g !in before))
  {
    AcceptableMeans(lib, x);
    assert Passes(lib, x, Replayed(InsertedGER)) && Passes(lib, x, Replayed(RemovedGER));
    Registry.FilterRefinesRun(before, events, Itself);
  }

  /** The chains of the bridge contract absorbed its calls: claims by leaf commitment, unset indices by their bytes. */
  ghost predicate ClaimChainsRecord(lib: Libraries, x: BridgeConstraintsInput,
                                    run: Registry.State<U256, GlobalIndexWithLeafHash>) {
    && PrevValue(lib, x, ClaimedGlobalIndex).Some? && PrevValue(lib, x, UnsetGlobalIndex).Some?
    && NewValue(lib, x, ClaimedGlobalIndex)
       == Some(Replay(lib.combine, PrevValue(lib, x, ClaimedGlobalIndex).value, Commitments(lib, run.inserted)))
    && NewValue(lib, x, UnsetGlobalIndex)
       == Some(Replay(lib.combine, PrevValue(lib, x, UnsetGlobalIndex).value, IndexBytes(run.removed)))
  }

  lemma RecordedClaimsReplay(lib: Libraries, x: BridgeConstraintsInput,
                             run: Registry.State<U256, GlobalIndexWithLeafHash>)
    requires Acceptable(lib, x) && ClaimChainsRecord(lib, x, run)
    ensures Replay(lib.combine, PrevValue(lib, x, ClaimedGlobalIndex).value,
                   Commitments(lib, x.bridgeWitness.bridgeExitsClaimed))
         == Replay(lib.combine, PrevValue(lib, x, ClaimedGlobalIndex).value, Commitments(lib, run.inserted))
    ensures Replay(lib.combine, PrevValue(lib, x, UnsetGlobalIndex).value,
                   IndexBytes(x.bridgeWitness.globalIndicesUnset))
         == Replay(lib.combine, PrevValue(lib, x, UnsetGlobalIndex).value, IndexBytes(run.removed))
    ensures x.commitImportedBridgeExits == lib.claimsCommitment(RemainingClaims(x.bridgeWitness))
  {
    AcceptableMeans(lib, x);
    assert Passes(lib, x, Replayed(ClaimedGlobalIndex)) && Passes(lib, x, Replayed(UnsetGlobalIndex));
  }

  /**
    End to end for claims: unless a cycle or collision of the hash or of the leaf commitment is
    exhibited, an accepted input commits to the live claims of indices not set before the range, in
    the order in which they were claimed; and those are all the live claims exactly when no live
    claim is of an index set before.
   */
  lemma AcceptedClaimsAreLive(lib: Libraries, x: BridgeConstraintsInput, before: set<U256>,
                              events: seq<Registry.Event<U256, GlobalIndexWithLeafHash>>)
    requires Acceptable(lib, x)
    requires Registry.Execute(before, events, IndexOf).Some?
    requires ClaimChainsRecord(lib, x, Registry.Execute(before, events, IndexOf).value)
    ensures var run := Registry.Execute(before, events, IndexOf).value;
            var p, q := PrevValue(lib, x, ClaimedGlobalIndex).value, PrevValue(lib, x, UnsetGlobalIndex).value;
            var claims, unset := x.bridgeWitness.bridgeExitsClaimed, x.bridgeWitness.globalIndicesUnset;
            var live := Registry.Outside(run.live, IndexOf, before);
            && Replay(lib.combine, p, Commitments(lib, claims))
               == Replay(lib.combine, p, Commitments(lib, run.inserted))
            && Replay(lib.combine, q, IndexBytes(unset)) == Replay(lib.combine, q, IndexBytes(run.removed))
            && (&& Bind(lib.combine, p, Commitments(lib, claims), Commitments(lib, run.inserted)).Same?
                && Bind(lib.combine, q, IndexBytes(unset), IndexBytes(run.removed)).Same?
                && DifferentClaim(lib, claims, run.inserted).None?
                ==> && RemainingClaims(x.bridgeWitness) == live
                    && x.commitImportedBridgeExits == lib.claimsCommitment(live))
            && (live == run.live <==> forall c :: c in run.live ==> IndexOf(c) !in before)
  {
    var run := Registry.Execute(before, events, IndexOf).value;
    RecordedClaimsReplay(lib, x, run);
    Registry.FilterRefinesRun(before, events, IndexOf);
    if IndexBytes(x.bridgeWitness.globalIndicesUnset) == IndexBytes(run.removed) {
      IndexBytesInjective(x.bridgeWitness.globalIndicesUnset, run.removed);
    }
  }

  // ----- Independence read from the contracts -----

  /**
    The lists of two consecutive ranges, recorded from runs of the two contracts, are independent
    exactly when the runs do not interfere: the condition of composition, read from the calls.
   */
  lemma RecordedRangesAreIndependent(lib: Libraries, w: BridgeWitness, v: BridgeWitness,
                                     gers: Registry.TwoRuns<Digest, Digest>,
                                     claims: Registry.TwoRuns<U256, GlobalIndexWithLeafHash>)
    requires gers.Accepted(Itself) && claims.Accepted(IndexOf)
    requires w.rawInsertedGers == gers.First(Itself).inserted && w.removedGers == gers.First(Itself).removed
    requires v.rawInsertedGers == gers.Second(Itself).inserted && v.removedGers == gers.Second(Itself).removed
    requires w.bridgeExitsClaimed == claims.First(IndexOf).inserted
    requires w.globalIndicesUnset == claims.First(IndexOf).removed
    requires v.bridgeExitsClaimed == claims.Second(IndexOf).inserted
    requires v.globalIndicesUnset == claims.Second(IndexOf).removed
    requires |w.removedGers| + |v.removedGers| <= lib.usizeMax
    requires |w.globalIndicesUnset| + |v.globalIndicesUnset| <= lib.usizeMax
    ensures Independent(lib, w, v) <==> gers.Uninterfering(Itself) && claims.Uninterfering(IndexOf)
  {
    Registry.RunsSeparate(gers, Itself);
    Registry.RunsSeparate(claims, IndexOf);
  }
}
