/** A static call against an L2 block sketch, anchored to an expected block hash. */
module StaticCall {
  import opened Results
  import opened Bytes
  import opened Foreign

  datatype HashChainType = InsertedGER | ClaimedGlobalIndex | RemovedGER | UnsetGlobalIndex

  datatype Stage =
    | PrevHashChain(chain: HashChainType)
    | NewHashChain(chain: HashChainType)
    | BridgeAddressStage
    | NewLer

  datatype StaticCallError = ClientInitialization | ClientExecution | DecodeContractOutput

  /** What a rejected call reports. */
  datatype CallError =
    | Failed(source: StaticCallError, stage: Stage)
    | MismatchBlockHash(retrieved: Digest, input: Digest, stage: Stage)

  datatype StaticCallWithContext = StaticCallWithContext(address: Address, stage: Stage, blockHash: Digest) {

    /** The decoded return value and the hash of the block the call ran on. */
    function ExecuteHelper<R>(lib: Libraries, sketch: EvmSketch, calldata: Call, caller: Address,
                              decode: seq<byte> -> Option<R>)
      : Result<(R, Digest), StaticCallError>
    {
      if !lib.initClient(sketch) then Err(ClientInitialization)
      else
        match lib.executeCall(sketch, address, caller, calldata)
        case None => Err(ClientExecution)
        case Some(output) =>
          match decode(output.contractOutput)
          case None => Err(DecodeContractOutput)
          case Some(value) => Ok((value, output.anchorHash))
    }

    /** The decoded return value, or the error tagged with the stage of the call. */
    function Execute<R>(lib: Libraries, caller: Address, sketch: EvmSketch, calldata: Call,
                        decode: seq<byte> -> Option<R>)
      : (r: Result<R, CallError>)
      ensures AnchoredReturn(lib, address, caller, sketch, calldata, decode, blockHash)
           == if r.Ok? then Some(r.value) else None
      ensures r.Err? ==> r.error.stage == stage
      ensures r == Err(Failed(ClientInitialization, stage)) <==> !lib.initClient(sketch)
      ensures r == Err(Failed(ClientExecution, stage))
         <==> lib.initClient(sketch) && lib.executeCall(sketch, address, caller, calldata).None?
      ensures r == Err(Failed(DecodeContractOutput, stage))
         <==> lib.initClient(sketch)
              && match lib.executeCall(sketch, address, caller, calldata)
                 case None => false
                 case Some(output) => decode(output.contractOutput).None?
      ensures r.Err? && r.error.MismatchBlockHash?
          ==> && r.error.input == blockHash != r.error.retrieved
              && AnchoredReturn(lib, address, caller, sketch, calldata, decode, r.error.retrieved).Some?
    {
      match ExecuteHelper(lib, sketch, calldata, caller, decode)
      case Err(e) => Err(Failed(e, stage))
      case Ok((value, retrieved)) =>
        if retrieved != blockHash then Err(MismatchBlockHash(retrieved, blockHash, stage))
        else Ok(value)
    }
  }

  /** What a view function returns in the block of the sketch, when that block has the expected hash. */
  function AnchoredReturn<R>(lib: Libraries, callee: Address, caller: Address, sketch: EvmSketch, calldata: Call,
                             decode: seq<byte> -> Option<R>, blockHash: Digest)
    : Option<R>
  {
    var output := if lib.initClient(sketch) then lib.executeCall(sketch, callee, caller, calldata) else None;
    if output.Some? && output.value.anchorHash == blockHash then decode(output.value.contractOutput) else None
  }

  /** A value is returned exactly when a client runs the call on the expected block and the output decodes to it. */
  lemma ReturnedOnBlock<R>(lib: Libraries, callee: Address, caller: Address, sketch: EvmSketch, calldata: Call,
                           decode: seq<byte> -> Option<R>, blockHash: Digest, value: R)
    ensures AnchoredReturn(lib, callee, caller, sketch, calldata, decode, blockHash) == Some(value)
       <==> lib.initClient(sketch)
            && exists output ::
                 && lib.executeCall(sketch, callee, caller, calldata) == Some(output)
                 && output.anchorHash == blockHash && decode(output.contractOutput) == Some(value)
  {
  }

  predicate SameAnswer(p: Option<CallOutput>, q: Option<CallOutput>) {
    p.Some? && q.Some? && p.value.anchorHash == q.value.anchorHash ==> p.value.contractOutput == q.value.contractOutput
  }

  /**
    What two sketches return for one call on one block is the same, when both can run it. It holds of
    any two sketches when a block decides what a call returns, whatever slots each sketch carries.
   */
  ghost predicate AnswerAlike(lib: Libraries, s: EvmSketch, caller: Address, s': EvmSketch, caller': Address) {
    lib.initClient(s) && lib.initClient(s')
    ==> forall callee, calldata ::
          SameAnswer(lib.executeCall(s, callee, caller, calldata), lib.executeCall(s', callee, caller', calldata))
  }

  lemma AnchoredAlike<R>(lib: Libraries, callee: Address, calldata: Call, decode: seq<byte> -> Option<R>,
                         blockHash: Digest, s: EvmSketch, caller: Address, s': EvmSketch, caller': Address)
    requires AnswerAlike(lib, s, caller, s', caller')
    requires AnchoredReturn(lib, callee, caller, s, calldata, decode, blockHash).Some?
    requires AnchoredReturn(lib, callee, caller', s', calldata, decode, blockHash).Some?
    ensures AnchoredReturn(lib, callee, caller, s, calldata, decode, blockHash)
         == AnchoredReturn(lib, callee, caller', s', calldata, decode, blockHash)
  {
    assert SameAnswer(lib.executeCall(s, callee, caller, calldata), lib.executeCall(s', callee, caller', calldata));
  }
}
