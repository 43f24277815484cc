/** The guest's bridge verifier: the witness, the checks it must pass, and the code that runs them. */
module BridgeConstraints {
  import opened Results
  import opened Bytes
  import opened Foreign
  import opened HashChain
  import opened CountingFilter
  import opened StaticCall

  /** An inserted global exit root with its proof against an L1 info root. */
  datatype InsertedGer =
    InsertedGer(proof: MerkleProof, l1InfoTreeLeaf: L1InfoTreeLeaf, blockNumber: U64, blockIndex: U64)
  {
    predicate Verify(lib: Libraries, l1InfoRoot: Digest) {
      if l1InfoRoot != proof.root then false
      else lib.merkleVerify(proof, lib.leafHash(l1InfoTreeLeaf), l1InfoTreeLeaf.l1InfoTreeIndex)
    }

    function Ger(lib: Libraries): Digest {
      lib.leafGer(l1InfoTreeLeaf)
    }
  }

  datatype BridgeWitness = BridgeWitness(
    insertedGers: seq<InsertedGer>,
    rawInsertedGers: seq<Digest>,
    removedGers: seq<Digest>,
    bridgeExitsClaimed: seq<GlobalIndexWithLeafHash>,
    globalIndicesUnset: seq<U256>,
    prevL2BlockSketch: EvmSketch,
    newL2BlockSketch: EvmSketch,
    callerAddress: Address
  )

  datatype BridgeConstraintsInput = BridgeConstraintsInput(
    gerAddr: Address,
    prevL2BlockHash: Digest,
    newL2BlockHash: Digest,
    newLocalExitRoot: Digest,
    l1InfoRoot: Digest,
    commitImportedBridgeExits: Digest,
    bridgeWitness: BridgeWitness
  )

  datatype BridgeError =
    | InvalidMerklePathGERToL1Root(insertedGer: Digest, l1InfoLeafIndex: U32, l1InfoRoot: Digest)
    | StaticCallFailed(call: CallError)
    | MismatchHashChain(prevHashChain: Digest, computed: Digest, input: Digest, hashChainType: HashChainType)
    | MismatchNewLocalExitRoot(retrieved: Digest, input: Digest)
    | MismatchConstrainedBridgeExits(computedCommitment: Digest, inputCommitment: Digest)
    | MismatchConstrainedInsertedGers(computedGers: seq<Digest>, inputGers: seq<Digest>)
    | ChainOverflow

  type Verdict = Result<(), BridgeError>

  // ----- What is read on chain -----

  function CalldataOf(t: HashChainType): Call {
    match t
    case InsertedGER => InsertedGERHashChain
    case RemovedGER => RemovedGERHashChain
    case ClaimedGlobalIndex => ClaimedGlobalIndexHashChain
    case UnsetGlobalIndex => UnsetGlobalIndexHashChain
  }

  /** The bridge address stored in the GER contract at the new block. */
  function BridgeAt(lib: Libraries, x: BridgeConstraintsInput): Option<Address> {
    AnchoredReturn(lib, x.gerAddr, x.bridgeWitness.callerAddress, x.bridgeWitness.newL2BlockSketch, BridgeAddress,
                   lib.decodeAddress, x.newL2BlockHash)
  }

  /** The contract that holds a hash chain. */
  function HolderOf(lib: Libraries, x: BridgeConstraintsInput, t: HashChainType): Option<Address> {
    if t.InsertedGER? || t.RemovedGER? then Some(x.gerAddr) else BridgeAt(lib, x)
  }

  function PrevValue(lib: Libraries, x: BridgeConstraintsInput, t: HashChainType): Option<Digest> {
    match HolderOf(lib, x, t)
    case None => None
    case Some(holder) =>
      AnchoredReturn(lib, holder, x.bridgeWitness.callerAddress, x.bridgeWitness.prevL2BlockSketch, CalldataOf(t),
                     lib.decodeWord, x.prevL2BlockHash)
  }

  function NewValue(lib: Libraries, x: BridgeConstraintsInput, t: HashChainType): Option<Digest> {
    match HolderOf(lib, x, t)
    case None => None
    case Some(holder) =>
      AnchoredReturn(lib, holder, x.bridgeWitness.callerAddress, x.bridgeWitness.newL2BlockSketch, CalldataOf(t),
                     lib.decodeWord, x.newL2BlockHash)
  }

  function ExitRootAt(lib: Libraries, x: BridgeConstraintsInput): Option<Digest> {
    match BridgeAt(lib, x)
    case None => None
    case Some(bridge) =>
      AnchoredReturn(lib, bridge, x.bridgeWitness.callerAddress, x.bridgeWitness.newL2BlockSketch, GetRoot,
                     lib.decodeWord, x.newL2BlockHash)
  }

  // ----- What the witness claims -----

  function Commitments(lib: Libraries, exits: seq<GlobalIndexWithLeafHash>): (r: seq<Digest>)
    ensures |r| == |exits|
  {
    seq<Digest>(|exits|, i requires 0 <= i < |exits| => lib.exitCommitment(exits[i]))
  }

  function IndexBytes(indices: seq<U256>): (r: seq<Digest>)
    ensures |r| == |indices|
  {
    seq<Digest>(|indices|, i requires 0 <= i < |indices| => ToBE(indices[i], 32))
  }

  function GersOf(lib: Libraries, gers: seq<InsertedGer>): (r: seq<Digest>)
    ensures |r| == |gers|
  {
    seq<Digest>(|gers|, i requires 0 <= i < |gers| => gers[i].Ger(lib))
  }

  /** The digests absorbed by a hash chain. */
  function Elements(lib: Libraries, w: BridgeWitness, t: HashChainType): seq<Digest> {
    match t
    case InsertedGER => w.rawInsertedGers
    case RemovedGER => w.removedGers
    case ClaimedGlobalIndex => Commitments(lib, w.bridgeExitsClaimed)
    case UnsetGlobalIndex => IndexBytes(w.globalIndicesUnset)
  }

  function IndexOf(exit: GlobalIndexWithLeafHash): U256 {
    exit.globalIndex
  }

  function Itself(d: Digest): Digest {
    d
  }

  /** The claims that were not unset. */
  ghost function RemainingClaims(w: BridgeWitness): seq<GlobalIndexWithLeafHash> {
    Survivors(multiset(w.globalIndicesUnset), w.bridgeExitsClaimed, IndexOf)
  }

  /** The inserted roots that were not removed. */
  ghost function RemainingGers(w: BridgeWitness): seq<Digest> {
    Survivors(multiset(w.removedGers), w.rawInsertedGers, Itself)
  }

  // ----- The checks -----

  datatype Check =
    | Called(stage: Stage)
    | Replayed(chain: HashChainType)
    | ExitRootMatches
    | ClaimsCounted
    | CommitmentMatches
    | GersCounted
    | GersMatch
    | GersProven

  /** What each check asks of the input. */
  ghost predicate Passes(lib: Libraries, x: BridgeConstraintsInput, c: Check) {
    match c
    case Called(PrevHashChain(t)) => PrevValue(lib, x, t).Some?
    case Called(NewHashChain(t)) => NewValue(lib, x, t).Some?
    case Called(BridgeAddressStage) => BridgeAt(lib, x).Some?
    case Called(NewLer) => ExitRootAt(lib, x).Some?
    case Replayed(t) =>
      && PrevValue(lib, x, t).Some? && NewValue(lib, x, t).Some?
      && Replay(lib.combine, PrevValue(lib, x, t).value, Elements(lib, x.bridgeWitness, t)) == NewValue(lib, x, t).value
    case ExitRootMatches => ExitRootAt(lib, x) == Some(x.newLocalExitRoot)
    case ClaimsCounted => !Overflows(x.bridgeWitness.globalIndicesUnset, lib.usizeMax)
    case CommitmentMatches => lib.claimsCommitment(RemainingClaims(x.bridgeWitness)) == x.commitImportedBridgeExits
    case GersCounted => !Overflows(x.bridgeWitness.removedGers, lib.usizeMax)
    case GersMatch => RemainingGers(x.bridgeWitness) == GersOf(lib, x.bridgeWitness.insertedGers)
    case GersProven =>
      forall i :: 0 <= i < |x.bridgeWitness.insertedGers| ==> x.bridgeWitness.insertedGers[i].Verify(lib, x.l1InfoRoot)
  }

  function ChainChecks(t: HashChainType): seq<Check> {
    [Called(PrevHashChain(t)), Called(NewHashChain(t)), Replayed(t)]
  }

  /** The order in which the verifier makes its checks. */
  const ORDER: seq<Check> :=
    ChainChecks(InsertedGER) + ChainChecks(RemovedGER) + [Called(BridgeAddressStage)]
    + (ChainChecks(ClaimedGlobalIndex) + ChainChecks(UnsetGlobalIndex))
    + [Called(NewLer), ExitRootMatches] + [ClaimsCounted, CommitmentMatches] + [GersCounted, GersMatch, GersProven]

  /** An input is acceptable when it passes every check. */
  ghost predicate Acceptable(lib: Libraries, x: BridgeConstraintsInput) {
    forall c :: c in ORDER ==> Passes(lib, x, c)
  }

  function CallAt(x: BridgeConstraintsInput, callee: Address, stage: Stage): StaticCallWithContext {
    StaticCallWithContext(callee, stage, if stage.PrevHashChain? then x.prevL2BlockHash else x.newL2BlockHash)
  }

  /** The index of the first root without a valid proof. */
  function FirstUnproven(lib: Libraries, gers: seq<InsertedGer>, l1InfoRoot: Digest): (r: Option<nat>)
    ensures r.None? <==> forall i :: 0 <= i < |gers| ==> gers[i].Verify(lib, l1InfoRoot)
    ensures r.Some? ==> r.value < |gers| && !gers[r.value].Verify(lib, l1InfoRoot)
    ensures r.Some? ==> forall i :: 0 <= i < r.value ==> gers[i].Verify(lib, l1InfoRoot)
  {
    if gers == [] then None
    else if !gers[0].Verify(lib, l1InfoRoot) then Some(0)
    else
      match FirstUnproven(lib, gers[1..], l1InfoRoot)
      case None =>
        assert forall i :: 0 < i < |gers| ==> gers[i] == gers[1..][i - 1];
        None
      case Some(i) => Some(i + 1)
  }

  // ----- The code -----

  function Lift<R>(r: Result<R, CallError>): (l: Result<R, BridgeError>)
    ensures l.Ok? <==> r.Ok?
    ensures r.Ok? ==> l.value == r.value
  {
    match r
    case Ok(v) => Ok(v)
    case Err(e) => Err(StaticCallFailed(e))
  }

  function FetchHashChains(lib: Libraries, x: BridgeConstraintsInput, t: HashChainType, holder: Address)
    : Result<(Digest, Digest), BridgeError>
  {
    var prev :- Lift(CallAt(x, holder, PrevHashChain(t)).Execute(
                       lib, x.bridgeWitness.callerAddress, x.bridgeWitness.prevL2BlockSketch,
                       CalldataOf(t), lib.decodeWord));
    var next :- Lift(CallAt(x, holder, NewHashChain(t)).Execute(
                       lib, x.bridgeWitness.callerAddress, x.bridgeWitness.newL2BlockSketch,
                       CalldataOf(t), lib.decodeWord));
    Ok((prev, next))
  }

  function ValidateHashChain(lib: Libraries, hashes: seq<Digest>, prev: Digest, next: Digest, t: HashChainType)
    : Verdict
  {
    var rebuilt := Replay(lib.combine, prev, hashes);
    if rebuilt != next then Err(MismatchHashChain(prev, rebuilt, next, t)) else Ok(())
  }

  function VerifyHashChain(lib: Libraries, x: BridgeConstraintsInput, t: HashChainType, holder: Address): Verdict {
    var (prev, next) :- FetchHashChains(lib, x, t, holder);
    ValidateHashChain(lib, Elements(lib, x.bridgeWitness, t), prev, next, t)
  }

  function VerifyGerHashChains(lib: Libraries, x: BridgeConstraintsInput): Verdict {
    var _ :- VerifyHashChain(lib, x, InsertedGER, x.gerAddr);
    VerifyHashChain(lib, x, RemovedGER, x.gerAddr)
  }

  function FetchBridgeAddress(lib: Libraries, x: BridgeConstraintsInput): Result<Address, BridgeError> {
    Lift(CallAt(x, x.gerAddr, BridgeAddressStage).Execute(
           lib, x.bridgeWitness.callerAddress, x.bridgeWitness.newL2BlockSketch, BridgeAddress, lib.decodeAddress))
  }

  function VerifyClaimsHashChains(lib: Libraries, x: BridgeConstraintsInput, bridge: Address): Verdict {
    var _ :- VerifyHashChain(lib, x, ClaimedGlobalIndex, bridge);
    VerifyHashChain(lib, x, UnsetGlobalIndex, bridge)
  }

  function VerifyNewLer(lib: Libraries, x: BridgeConstraintsInput, bridge: Address): Verdict {
    var newLer :- Lift(CallAt(x, bridge, NewLer).Execute(
                         lib, x.bridgeWitness.callerAddress, x.bridgeWitness.newL2BlockSketch,
                         GetRoot, lib.decodeWord));
    if newLer != x.newLocalExitRoot then Err(MismatchNewLocalExitRoot(newLer, x.newLocalExitRoot)) else Ok(())
  }

  // ----- The error of each check -----

  function ErrorOf<R>(r: Result<R, CallError>): Option<BridgeError> {
    match r
    case Ok(_) => None
    case Err(e) => Some(StaticCallFailed(e))
  }

  ghost function BlameCall(lib: Libraries, x: BridgeConstraintsInput, stage: Stage): Option<BridgeError> {
    var callee := match stage
      case PrevHashChain(t) => HolderOf(lib, x, t)
      case NewHashChain(t) => HolderOf(lib, x, t)
      case BridgeAddressStage => Some(x.gerAddr)
      case NewLer => BridgeAt(lib, x);
    if callee.None? then None
    else
      var call, caller := CallAt(x, callee.value, stage), x.bridgeWitness.callerAddress;
      match stage
      case PrevHashChain(t) =>
        ErrorOf(call.Execute(lib, caller, x.bridgeWitness.prevL2BlockSketch, CalldataOf(t), lib.decodeWord))
      case NewHashChain(t) =>
        ErrorOf(call.Execute(lib, caller, x.bridgeWitness.newL2BlockSketch, CalldataOf(t), lib.decodeWord))
      case BridgeAddressStage =>
        ErrorOf(call.Execute(lib, caller, x.bridgeWitness.newL2BlockSketch, BridgeAddress, lib.decodeAddress))
      case NewLer =>
        ErrorOf(call.Execute(lib, caller, x.bridgeWitness.newL2BlockSketch, GetRoot, lib.decodeWord))
  }

  /** The error that a failing check reports; None when a value it compares could not be fetched. */
  ghost function Blame(lib: Libraries, x: BridgeConstraintsInput, c: Check): Option<BridgeError> {
    match c
    case Called(stage) => BlameCall(lib, x, stage)
    case Replayed(t) =>
      (match (PrevValue(lib, x, t), NewValue(lib, x, t))
       case (Some(p), Some(n)) =>
         Some(MismatchHashChain(p, Replay(lib.combine, p, Elements(lib, x.bridgeWitness, t)), n, t))
       case _ => None)
    case ExitRootMatches =>
      (match ExitRootAt(lib, x)
       case Some(root) => Some(MismatchNewLocalExitRoot(root, x.newLocalExitRoot))
       case None => None)
    case ClaimsCounted => Some(ChainOverflow)
    case CommitmentMatches =>
      Some(MismatchConstrainedBridgeExits(lib.claimsCommitment(RemainingClaims(x.bridgeWitness)),
                                          x.commitImportedBridgeExits))
    case GersCounted => Some(ChainOverflow)
    case GersMatch =>
      Some(MismatchConstrainedInsertedGers(RemainingGers(x.bridgeWitness), GersOf(lib, x.bridgeWitness.insertedGers)))
    case GersProven =>
      (match FirstUnproven(lib, x.bridgeWitness.insertedGers, x.l1InfoRoot)
       case Some(i) =>
         var wrong := x.bridgeWitness.insertedGers[i];
         Some(InvalidMerklePathGERToL1Root(wrong.Ger(lib), wrong.l1InfoTreeLeaf.l1InfoTreeIndex, x.l1InfoRoot))
       case None => None)
  }

  ghost predicate FailsFirst(lib: Libraries, x: BridgeConstraintsInput, checks: seq<Check>, i: int) {
    0 <= i < |checks| && !Passes(lib, x, checks[i]) && forall j :: 0 <= j < i ==> Passes(lib, x, checks[j])
  }

  /** The verdict of making the checks in order and stopping at the first that fails. */
  ghost predicate Decides(lib: Libraries, x: BridgeConstraintsInput, checks: seq<Check>, v: Verdict) {
    match v
    case Ok(_) => forall i :: 0 <= i < |checks| ==> Passes(lib, x, checks[i])
    case Err(e) => exists i :: FailsFirst(lib, x, checks, i) && Blame(lib, x, checks[i]) == Some(e)
  }

  lemma DecidedEarly(lib: Libraries, x: BridgeConstraintsInput, checks: seq<Check>, all: seq<Check>, v: Verdict)
    requires checks <= all && v.Err? && Decides(lib, x, checks, v)
    ensures Decides(lib, x, all, v)
  {
  }

  lemma DecidedNext(lib: Libraries, x: BridgeConstraintsInput, a: seq<Check>, b: seq<Check>, v: Verdict)
    requires Decides(lib, x, a, Ok(())) && Decides(lib, x, b, v)
    ensures Decides(lib, x, a + b, v)
  {
    if v.Err? {
      var i :| FailsFirst(lib, x, b, i) && Blame(lib, x, b[i]) == Some(v.error);
      assert FailsFirst(lib, x, a + b, |a| + i);
    }
  }

  lemma ChainDecided(lib: Libraries, x: BridgeConstraintsInput, t: HashChainType, holder: Address)
    requires HolderOf(lib, x, t) == Some(holder)
    ensures Decides(lib, x, ChainChecks(t), VerifyHashChain(lib, x, t, holder))
  {
    var v, checks := VerifyHashChain(lib, x, t, holder), ChainChecks(t);
    var prev, next := PrevValue(lib, x, t), NewValue(lib, x, t);
    if prev.None? {
      assert FailsFirst(lib, x, checks, 0);
    } else if next.None? {
      assert FailsFirst(lib, x, checks, 1);
    } else if v.Err? {
      assert FailsFirst(lib, x, checks, 2);
    }
  }

  lemma TwoChainsDecided(lib: Libraries, x: BridgeConstraintsInput, t: HashChainType, u: HashChainType, holder: Address)
    requires HolderOf(lib, x, t) == HolderOf(lib, x, u) == Some(holder)
    ensures var first := VerifyHashChain(lib, x, t, holder);
            var both := if first.Err? then first else VerifyHashChain(lib, x, u, holder);
            Decides(lib, x, ChainChecks(t) + ChainChecks(u), both)
  {
    ChainDecided(lib, x, t, holder);
    ChainDecided(lib, x, u, holder);
    var first := VerifyHashChain(lib, x, t, holder);
    if first.Err? {
      DecidedEarly(lib, x, ChainChecks(t), ChainChecks(t) + ChainChecks(u), first);
    } else {
      DecidedNext(lib, x, ChainChecks(t), ChainChecks(u), VerifyHashChain(lib, x, u, holder));
    }
  }

  lemma AddressDecided(lib: Libraries, x: BridgeConstraintsInput, v: Verdict)
    requires var bridge := FetchBridgeAddress(lib, x);
             v == if bridge.Err? then Err(bridge.error) else Ok(())
    ensures Decides(lib, x, [Called(BridgeAddressStage)], v)
    ensures v.Ok? ==> BridgeAt(lib, x) == Some(FetchBridgeAddress(lib, x).value)
  {
    if v.Err? {
      assert FailsFirst(lib, x, [Called(BridgeAddressStage)], 0);
    }
  }

  lemma LerDecided(lib: Libraries, x: BridgeConstraintsInput, bridge: Address)
    requires BridgeAt(lib, x) == Some(bridge)
    ensures Decides(lib, x, [Called(NewLer), ExitRootMatches], VerifyNewLer(lib, x, bridge))
  {
    var v, checks := VerifyNewLer(lib, x, bridge), [Called(NewLer), ExitRootMatches];
    if ExitRootAt(lib, x).None? {
      assert FailsFirst(lib, x, checks, 0);
    } else if v.Err? {
      assert FailsFirst(lib, x, checks, 1);
    }
  }

  // ----- The verifier -----

  method VerifyConstrainedGlobalIndices(lib: Libraries, x: BridgeConstraintsInput) returns (v: Verdict)
    ensures Decides(lib, x, [ClaimsCounted, CommitmentMatches], v)
  {
    ghost var checks := [ClaimsCounted, CommitmentMatches];
    var unset := x.bridgeWitness.globalIndicesUnset;
    var claims := FilterValues(unset, x.bridgeWitness.bridgeExitsClaimed, IndexOf, lib.usizeMax);
    if claims.Err? {
      assert FailsFirst(lib, x, checks, 0);
      return Err(ChainOverflow);
    }
    var computed := lib.claimsCommitment(claims.value);
    if computed != x.commitImportedBridgeExits {
      assert FailsFirst(lib, x, checks, 1);
      return Err(MismatchConstrainedBridgeExits(computed, x.commitImportedBridgeExits));
    }
    return Ok(());
  }

  method VerifyInsertedGers(lib: Libraries, x: BridgeConstraintsInput) returns (v: Verdict)
    ensures Decides(lib, x, [GersCounted, GersMatch, GersProven], v)
  {
    ghost var checks := [GersCounted, GersMatch, GersProven];
    var filtered := FilterValues(x.bridgeWitness.removedGers, x.bridgeWitness.rawInsertedGers, Itself, lib.usizeMax);
    if filtered.Err? {
      assert FailsFirst(lib, x, checks, 0);
      return Err(ChainOverflow);
    }
    var compare := GersOf(lib, x.bridgeWitness.insertedGers);
    if filtered.value != compare {
      assert FailsFirst(lib, x, checks, 1);
      return Err(MismatchConstrainedInsertedGers(filtered.value, compare));
    }
    var unproven := FirstUnproven(lib, x.bridgeWitness.insertedGers, x.l1InfoRoot);
    if unproven.Some? {
      assert FailsFirst(lib, x, checks, 2);
      var wrong := x.bridgeWitness.insertedGers[unproven.value];
      return Err(InvalidMerklePathGERToL1Root(wrong.Ger(lib), wrong.l1InfoTreeLeaf.l1InfoTreeIndex, x.l1InfoRoot));
    }
    return Ok(());
  }

  /** The checks made before each step of the verifier, ending with all of them. */
  lemma Steps()
    returns (gers: seq<Check>, address: seq<Check>, claims: seq<Check>, ler: seq<Check>, commitment: seq<Check>)
    ensures gers == ChainChecks(InsertedGER) + ChainChecks(RemovedGER)
    ensures address == gers + [Called(BridgeAddressStage)]
    ensures claims == address + (ChainChecks(ClaimedGlobalIndex) + ChainChecks(UnsetGlobalIndex))
    ensures ler == claims + [Called(NewLer), ExitRootMatches]
    ensures commitment == ler + [ClaimsCounted, CommitmentMatches]
    ensures ORDER == commitment + [GersCounted, GersMatch, GersProven]
    ensures gers <= ORDER && address <= ORDER && claims <= ORDER && ler <= ORDER && commitment <= ORDER
  {
    gers := ChainChecks(InsertedGER) + ChainChecks(RemovedGER);
    address := gers + [Called(BridgeAddressStage)];
    claims := address + (ChainChecks(ClaimedGlobalIndex) + ChainChecks(UnsetGlobalIndex));
    ler := claims + [Called(NewLer), ExitRootMatches];
    commitment := ler + [ClaimsCounted, CommitmentMatches];
  }

  /** A step decided: carry on when it passes, otherwise this is the verdict of the whole order. */
  lemma StepDecided(lib: Libraries, x: BridgeConstraintsInput, done: seq<Check>, step: seq<Check>, upTo: seq<Check>,
                    v: Verdict)
    requires Decides(lib, x, done, Ok(())) && Decides(lib, x, step, v)
    requires upTo == done + step && upTo <= ORDER
    ensures Decides(lib, x, upTo, v)
    ensures v.Err? ==> Decides(lib, x, ORDER, v)
  {
    DecidedNext(lib, x, done, step, v);
    if v.Err? {
      DecidedEarly(lib, x, upTo, ORDER, v);
    }
  }

  /** `BridgeConstraintsInput::verify`: the verdict of the twenty checks in order. */
  method Verify(lib: Libraries, x: BridgeConstraintsInput) returns (v: Verdict)
    ensures Decides(lib, x, ORDER, v)
  {
    ghost var gers, address, claims, ler, commitment := Steps();

    v := VerifyGerHashChains(lib, x);
    TwoChainsDecided(lib, x, InsertedGER, RemovedGER, x.gerAddr);
    StepDecided(lib, x, [], gers, gers, v);
    if v.Err? { return; }

    var bridge := FetchBridgeAddress(lib, x);
    v := if bridge.Err? then Err(bridge.error) else Ok(());
    AddressDecided(lib, x, v);
    StepDecided(lib, x, gers, [Called(BridgeAddressStage)], address, v);
    if v.Err? { return; }

    v := VerifyClaimsHashChains(lib, x, bridge.value);
    TwoChainsDecided(lib, x, ClaimedGlobalIndex, UnsetGlobalIndex, bridge.value);
    StepDecided(lib, x, address, ChainChecks(ClaimedGlobalIndex) + ChainChecks(UnsetGlobalIndex), claims, v);
    if v.Err? { return; }

    v := VerifyNewLer(lib, x, bridge.value);
    LerDecided(lib, x, bridge.value);
    StepDecided(lib, x, claims, [Called(NewLer), ExitRootMatches], ler, v);
    if v.Err? { return; }

    v := VerifyConstrainedGlobalIndices(lib, x);
    StepDecided(lib, x, ler, [ClaimsCounted, CommitmentMatches], commitment, v);
    if v.Err? { return; }

    v := VerifyInsertedGers(lib, x);
    StepDecided(lib, x, commitment, [GersCounted, GersMatch, GersProven], ORDER, v);
  }

  /** The order of checks leaves the verifier one verdict: acceptance when all pass, else the first error. */
  lemma OneVerdict(lib: Libraries, x: BridgeConstraintsInput, v: Verdict, w: Verdict)
    requires Decides(lib, x, ORDER, v) && Decides(lib, x, ORDER, w)
    ensures v == w
    ensures v.Ok? <==> Acceptable(lib, x)
  {
    if v.Ok? {
      assert v.value == ();
      assert w.Ok? ==> w.value == ();
    } else if w.Err? {
      var i :| FailsFirst(lib, x, ORDER, i) && Blame(lib, x, ORDER[i]) == Some(v.error);
      var j :| FailsFirst(lib, x, ORDER, j) && Blame(lib, x, ORDER[j]) == Some(w.error);
      assert i == j;
    }
  }

  // ----- The checks written out -----

  /** Which contract and function each value is read from, through which sketch, and on which block. */
  lemma ReadOnChain(lib: Libraries, x: BridgeConstraintsInput)
    ensures var w, h := x.bridgeWitness, x.prevL2BlockHash;
            && PrevValue(lib, x, InsertedGER)
               == AnchoredReturn(lib, x.gerAddr, w.callerAddress, w.prevL2BlockSketch, InsertedGERHashChain,
                                 lib.decodeWord, h)
            && PrevValue(lib, x, RemovedGER)
               == AnchoredReturn(lib, x.gerAddr, w.callerAddress, w.prevL2BlockSketch, RemovedGERHashChain,
                                 lib.decodeWord, h)
    ensures var w, h := x.bridgeWitness, x.newL2BlockHash;
            && NewValue(lib, x, InsertedGER)
               == AnchoredReturn(lib, x.gerAddr, w.callerAddress, w.newL2BlockSketch, InsertedGERHashChain,
                                 lib.decodeWord, h)
            && NewValue(lib, x, RemovedGER)
               == AnchoredReturn(lib, x.gerAddr, w.callerAddress, w.newL2BlockSketch, RemovedGERHashChain,
                                 lib.decodeWord, h)
            && BridgeAt(lib, x)
               == AnchoredReturn(lib, x.gerAddr, w.callerAddress, w.newL2BlockSketch, Call.BridgeAddress,
                                 lib.decodeAddress, h)
    ensures BridgeAt(lib, x).Some?
        ==> var w, bridge, h := x.bridgeWitness, BridgeAt(lib, x).value, x.prevL2BlockHash;
            && PrevValue(lib, x, ClaimedGlobalIndex)
               == AnchoredReturn(lib, bridge, w.callerAddress, w.prevL2BlockSketch, ClaimedGlobalIndexHashChain,
                                 lib.decodeWord, h)
            && PrevValue(lib, x, UnsetGlobalIndex)
               == AnchoredReturn(lib, bridge, w.callerAddress, w.prevL2BlockSketch, UnsetGlobalIndexHashChain,
                                 lib.decodeWord, h)
    ensures BridgeAt(lib, x).Some?
        ==> var w, bridge, h := x.bridgeWitness, BridgeAt(lib, x).value, x.newL2BlockHash;
            && NewValue(lib, x, ClaimedGlobalIndex)
               == AnchoredReturn(lib, bridge, w.callerAddress, w.newL2BlockSketch, ClaimedGlobalIndexHashChain,
                                 lib.decodeWord, h)
            && NewValue(lib, x, UnsetGlobalIndex)
               == AnchoredReturn(lib, bridge, w.callerAddress, w.newL2BlockSketch, UnsetGlobalIndexHashChain,
                                 lib.decodeWord, h)
            && ExitRootAt(lib, x)
               == AnchoredReturn(lib, bridge, w.callerAddress, w.newL2BlockSketch, GetRoot, lib.decodeWord, h)
    ensures BridgeAt(lib, x).None?
        ==> && PrevValue(lib, x, ClaimedGlobalIndex) == PrevValue(lib, x, UnsetGlobalIndex) == None
            && NewValue(lib, x, ClaimedGlobalIndex) == NewValue(lib, x, UnsetGlobalIndex) == ExitRootAt(lib, x) == None
  {
  }

  /** The twenty checks, one by one. */
  lemma TwentyChecks()
    ensures ORDER
         == [Called(PrevHashChain(InsertedGER)), Called(NewHashChain(InsertedGER)), Replayed(InsertedGER),
             Called(PrevHashChain(RemovedGER)), Called(NewHashChain(RemovedGER)), Replayed(RemovedGER),
             Called(BridgeAddressStage),
             Called(PrevHashChain(ClaimedGlobalIndex)), Called(NewHashChain(ClaimedGlobalIndex)),
             Replayed(ClaimedGlobalIndex),
             Called(PrevHashChain(UnsetGlobalIndex)), Called(NewHashChain(UnsetGlobalIndex)),
             Replayed(UnsetGlobalIndex),
             Called(NewLer), ExitRootMatches, ClaimsCounted, CommitmentMatches, GersCounted, GersMatch, GersProven]
  {
  }

  /**
    The claims that remain are those at the returned positions, in order: a claim remains exactly when its
    global index was claimed before it at least as often as it is unset in the range.
   */
  lemma RemainingClaimsByPosition(w: BridgeWitness) returns (positions: seq<nat>)
    ensures |positions| == |RemainingClaims(w)|
    ensures forall a, b :: 0 <= a < b < |positions| ==> positions[a] < positions[b]
    ensures forall a :: 0 <= a < |positions|
                    ==> && positions[a] < |w.bridgeExitsClaimed|
                        && RemainingClaims(w)[a] == w.bridgeExitsClaimed[positions[a]]
    ensures forall j :: 0 <= j < |w.bridgeExitsClaimed|
                    ==> var claims := w.bridgeExitsClaimed;
                        var before := seq(j, i requires 0 <= i < j => claims[i].globalIndex);
                        var index := claims[j].globalIndex;
                        j in positions <==> multiset(before)[index] >= multiset(w.globalIndicesUnset)[index]
  {
    var claims := w.bridgeExitsClaimed;
    positions := SurvivorsByPosition(multiset(w.globalIndicesUnset), claims, IndexOf);
    forall j | 0 <= j < |claims|
      ensures seq(j, i requires 0 <= i < j => claims[i].globalIndex) == Keys(claims, IndexOf)[..j]
      ensures IndexOf(claims[j]) == claims[j].globalIndex
    {
    }
  }

  /** The roots that remain, likewise: a root remains exactly when it was inserted before as often as it is removed. */
  lemma RemainingGersByPosition(w: BridgeWitness) returns (positions: seq<nat>)
    ensures |positions| == |RemainingGers(w)|
    ensures forall a, b :: 0 <= a < b < |positions| ==> positions[a] < positions[b]
    ensures forall a :: 0 <= a < |positions|
                    ==> && positions[a] < |w.rawInsertedGers|
                        && RemainingGers(w)[a] == w.rawInsertedGers[positions[a]]
    ensures forall j :: 0 <= j < |w.rawInsertedGers|
                    ==> var ger := w.rawInsertedGers[j];
                        j in positions <==> multiset(w.rawInsertedGers[..j])[ger] >= multiset(w.removedGers)[ger]
  {
    positions := SurvivorsByPosition(multiset(w.removedGers), w.rawInsertedGers, Itself);
    assert Keys(w.rawInsertedGers, Itself) == w.rawInsertedGers;
  }

  /** A root is proven when its leaf, at its index, is under the L1 root by its own Merkle proof. */
  ghost predicate ProvenTo(lib: Libraries, gers: seq<InsertedGer>, i: int, l1InfoRoot: Digest)
    requires 0 <= i < |gers|
  {
    var leaf := gers[i].l1InfoTreeLeaf;
    && gers[i].proof.root == l1InfoRoot
    && lib.merkleVerify(gers[i].proof, lib.leafHash(leaf), leaf.l1InfoTreeIndex)
  }

  lemma ProvenOneByOne(lib: Libraries, gers: seq<InsertedGer>, l1InfoRoot: Digest)
    ensures (forall i :: 0 <= i < |gers| ==> ProvenTo(lib, gers, i, l1InfoRoot))
       <==> (forall i :: 0 <= i < |gers| ==> gers[i].Verify(lib, l1InfoRoot))
  {
    forall i | 0 <= i < |gers|
      ensures ProvenTo(lib, gers, i, l1InfoRoot) <==> gers[i].Verify(lib, l1InfoRoot)
    {
    }
  }

  /** The digests of a list, written out. */
  lemma DigestsWrittenOut(lib: Libraries, gers: seq<InsertedGer>, claims: seq<GlobalIndexWithLeafHash>,
                          unset: seq<U256>)
    ensures GersOf(lib, gers)
         == seq<Digest>(|gers|, i requires 0 <= i < |gers| => lib.leafGer(gers[i].l1InfoTreeLeaf))
    ensures Commitments(lib, claims)
         == seq<Digest>(|claims|, i requires 0 <= i < |claims| => lib.exitCommitment(claims[i]))
    ensures IndexBytes(unset) == seq<Digest>(|unset|, i requires 0 <= i < |unset| => ToBE(unset[i], 32))
  {
  }

  /** What an error of the verifier says about the input. */
  ghost predicate Says(lib: Libraries, x: BridgeConstraintsInput, e: BridgeError) {
    var w := x.bridgeWitness;
    match e
    case InvalidMerklePathGERToL1Root(ger, index, root) =>
      root == x.l1InfoRoot
      && exists i :: && 0 <= i < |w.insertedGers| && !ProvenTo(lib, w.insertedGers, i, root)
                     && ger == lib.leafGer(w.insertedGers[i].l1InfoTreeLeaf)
                     && index == w.insertedGers[i].l1InfoTreeLeaf.l1InfoTreeIndex
                     && forall j :: 0 <= j < i ==> ProvenTo(lib, w.insertedGers, j, root)
    case StaticCallFailed(call) =>
      && (call.MismatchBlockHash?
          ==> call.input == (if call.stage.PrevHashChain? then x.prevL2BlockHash else x.newL2BlockHash)
              && call.retrieved != call.input)
      && (match call.stage
          case PrevHashChain(t) => PrevValue(lib, x, t).None?
          case NewHashChain(t) => NewValue(lib, x, t).None?
          case BridgeAddressStage => BridgeAt(lib, x).None?
          case NewLer => ExitRootAt(lib, x).None?)
    case MismatchHashChain(prev, computed, input, t) =>
      && PrevValue(lib, x, t) == Some(prev) && NewValue(lib, x, t) == Some(input)
      && computed == Replay(lib.combine, prev, Elements(lib, w, t)) != input
    case MismatchNewLocalExitRoot(retrieved, input) =>
      ExitRootAt(lib, x) == Some(retrieved) && retrieved != input == x.newLocalExitRoot
    case MismatchConstrainedBridgeExits(computed, input) =>
      computed == lib.claimsCommitment(RemainingClaims(w)) && computed != input == x.commitImportedBridgeExits
    case MismatchConstrainedInsertedGers(computed, input) =>
      && computed == RemainingGers(w) && computed != input && |input| == |w.insertedGers|
      && forall i :: 0 <= i < |input| ==> input[i] == lib.leafGer(w.insertedGers[i].l1InfoTreeLeaf)
    case ChainOverflow =>
      || (exists k :: k in w.globalIndicesUnset && multiset(w.globalIndicesUnset)[k] > lib.usizeMax)
      || (exists k :: k in w.removedGers && multiset(w.removedGers)[k] > lib.usizeMax)
  }

  lemma BlameSays(lib: Libraries, x: BridgeConstraintsInput, c: Check, e: BridgeError)
    requires !Passes(lib, x, c) && Blame(lib, x, c) == Some(e)
    ensures Says(lib, x, e)
  {
  }

  /** The error of a rejected input is true of it. */
  lemma ErrorSays(lib: Libraries, x: BridgeConstraintsInput, e: BridgeError)
    requires Decides(lib, x, ORDER, Err(e))
    ensures Says(lib, x, e)
  {
    var i :| FailsFirst(lib, x, ORDER, i) && Blame(lib, x, ORDER[i]) == Some(e);
    BlameSays(lib, x, ORDER[i], e);
  }
}
