/** The string-keyed context that accompanies a proof. */
module ContextMap {
  import opened Bytes
  import opened KeyedMap
  import opened Text
  import opened AggchainInputs

  type Bytestring = seq<byte>

  datatype Field =
    | LastProvenBlock | RequestedEndBlock | RootHash | LeafIndex | Rer | Mer | Ger | BlockHash | Timestamp

  datatype GerField = GerBlockNumber | GerBlockIndex | GerLeafIndex

  datatype ExitField = ExitBlockNumber | ExitHash | ExitGlobalIndex

  /** What an entry of the context is about. */
  datatype Key =
    | OfRequest(field: Field)
    | OfGer(name: string, gerField: GerField)
    | OfExit(i: nat, exitField: ExitField)

  function FieldName(f: Field): string {
    match f
    case LastProvenBlock => "last_proven_block"
    case RequestedEndBlock => "requested_end_block"
    case RootHash => "l1_info_tree_root_hash"
    case LeafIndex => "l1_info_tree_index"
    case Rer => "l1_info_tree_rer"
    case Mer => "l1_info_tree_mer"
    case Ger => "l1_info_tree_ger"
    case BlockHash => "l1_info_tree_block_hash"
    case Timestamp => "l1_info_tree_timestamp"
  }

  function GerSuffix(g: GerField): string {
    match g
    case GerBlockNumber => "/block_number"
    case GerBlockIndex => "/block_index"
    case GerLeafIndex => "/l1_leaf_index"
  }

  function ExitSuffix(e: ExitField): string {
    match e
    case ExitBlockNumber => "/block_number"
    case ExitHash => "/bridge_exit_hash"
    case ExitGlobalIndex => "/global_index"
  }

  function GerText(name: string, g: GerField): string {
    "ger/" + name + GerSuffix(g)
  }

  function ExitText(i: nat, e: ExitField): string {
    "ibe/" + Decimal(i) + ExitSuffix(e)
  }

  /** The key scheme. */
  function Render(k: Key): string {
    match k
    case OfRequest(f) => FieldName(f)
    case OfGer(name, g) => GerText(name, g)
    case OfExit(i, e) => ExitText(i, e)
  }

  predicate HasEntry(inputs: AggchainProofInputs, k: Key) {
    match k
    case OfRequest(_) => true
    case OfGer(name, _) => name in inputs.gerLeaves
    case OfExit(i, _) => i < |inputs.importedBridgeExits|
  }

  function FieldValue(inputs: AggchainProofInputs, f: Field): Bytestring {
    var leaf := inputs.l1InfoTreeLeaf;
    match f
    case LastProvenBlock => ToBE(inputs.lastProvenBlock, 8)
    case RequestedEndBlock => ToBE(inputs.requestedEndBlock, 8)
    case RootHash => inputs.l1InfoTreeRootHash
    case LeafIndex => ToBE(leaf.l1InfoTreeIndex, 4)
    case Rer => leaf.rer
    case Mer => leaf.mer
    case Ger => leaf.inner.globalExitRoot
    case BlockHash => leaf.inner.blockHash
    case Timestamp => ToBE(leaf.inner.timestamp, 8)
  }

  function GerValue(ger: GerWithBlockNumber, g: GerField): Bytestring {
    match g
    case GerBlockNumber => ToBE(ger.blockNumber, 8)
    case GerBlockIndex => ToBE(ger.blockIndex, 8)
    case GerLeafIndex => ToBE(ger.insertedGer.l1Leaf.l1InfoTreeIndex, 4)
  }

  function ExitValue(ibe: ExitWithBlockNumber, e: ExitField): Bytestring {
    match e
    case ExitBlockNumber => ToBE(ibe.blockNumber, 8)
    case ExitHash => ibe.bridgeExitHash
    case ExitGlobalIndex => ToBE(ibe.globalIndex, 32)
  }

  /** The bytes stored for an entry. */
  function Value(inputs: AggchainProofInputs, k: Key): Bytestring
    requires HasEntry(inputs, k)
  {
    match k
    case OfRequest(f) => FieldValue(inputs, f)
    case OfGer(name, g) => GerValue(inputs.gerLeaves[name], g)
    case OfExit(i, e) => ExitValue(inputs.importedBridgeExits[i], e)
  }

  // ----- No two entries share a key -----

  lemma FieldNamesDistinct(f: Field, g: Field)
    requires FieldName(f) == FieldName(g)
    ensures f == g
  {
  }

  /** Two texts with equal ends around a middle part have equal middle parts. */
  lemma MiddleOf(prefix: string, a: string, b: string, suffix: string)
    requires prefix + a + suffix == prefix + b + suffix
    ensures a == b
  {
    var s, t := prefix + a + suffix, prefix + b + suffix;
    assert |a| == |b|;
    assert a == s[|prefix|..|prefix| + |a|] == t[|prefix|..|prefix| + |b|] == b;
  }

  /** The character n places before the end of a text that ends in a suffix. */
  lemma FromEnd(front: string, suffix: string, n: nat)
    requires 0 < n <= |suffix|
    ensures (front + suffix)[|front + suffix| - n] == suffix[|suffix| - n]
  {
  }

  lemma GerSuffixesDistinct(m: string, f: GerField, n: string, g: GerField)
    requires "ger/" + m + GerSuffix(f) == "ger/" + n + GerSuffix(g)
    ensures f == g
  {
    FromEnd("ger/" + m, GerSuffix(f), 1);
    FromEnd("ger/" + n, GerSuffix(g), 1);
    FromEnd("ger/" + m, GerSuffix(f), 7);
    FromEnd("ger/" + n, GerSuffix(g), 7);
  }

  lemma ExitSuffixesDistinct(i: string, e: ExitField, j: string, f: ExitField)
    requires "ibe/" + i + ExitSuffix(e) == "ibe/" + j + ExitSuffix(f)
    ensures e == f
  {
    FromEnd("ibe/" + i, ExitSuffix(e), 1);
    FromEnd("ibe/" + j, ExitSuffix(f), 1);
  }

  lemma FirstCharacter(k: Key)
    ensures Render(k) != [] && (Render(k)[0] == 'g' <==> k.OfGer?) && (Render(k)[0] == 'i' <==> k.OfExit?)
  {
  }

  /** The key scheme is injective, whatever the names of the roots, slashes included. */
  lemma RenderInjective(j: Key, k: Key)
    requires Render(j) == Render(k)
    ensures j == k
  {
    FirstCharacter(j);
    FirstCharacter(k);
    match j
    case OfRequest(f) =>
      FieldNamesDistinct(f, k.field);
    case OfGer(m, f) =>
      GerSuffixesDistinct(m, f, k.name, k.gerField);
      MiddleOf("ger/", m, k.name, GerSuffix(f));
    case OfExit(a, e) =>
      ExitSuffixesDistinct(Decimal(a), e, Decimal(k.i), k.exitField);
      MiddleOf("ibe/", Decimal(a), Decimal(k.i), ExitSuffix(e));
      DecimalInjective(a, k.i);
  }

  // ----- Building the map -----

  const FIELDS: seq<Field> :=
    [LastProvenBlock, RequestedEndBlock, RootHash, LeafIndex, Rer, Mer, Ger, BlockHash, Timestamp]

  function FieldKeys(): (r: seq<Key>)
    ensures |r| == 9
  {
    seq(9, i requires 0 <= i < 9 => OfRequest(FIELDS[i]))
  }

  function KeysOfGer(name: string): seq<Key> {
    [OfGer(name, GerBlockNumber), OfGer(name, GerBlockIndex), OfGer(name, GerLeafIndex)]
  }

  function KeysOfExit(i: nat): seq<Key> {
    [OfExit(i, ExitBlockNumber), OfExit(i, ExitHash), OfExit(i, ExitGlobalIndex)]
  }

  /** The insertions for the roots, in the order in which the hash map yields them. */
  function GerKeys(order: seq<string>): (r: seq<Key>)
    ensures |r| == 3 * |order|
  {
    if order == [] then [] else GerKeys(order[..|order| - 1]) + KeysOfGer(order[|order| - 1])
  }

  /** The insertions for the first n exits. */
  function ExitKeys(n: nat): (r: seq<Key>)
    ensures |r| == 3 * n
  {
    if n == 0 then [] else ExitKeys(n - 1) + KeysOfExit(n - 1)
  }

  lemma FieldKeysAre()
    ensures NoRepeat(FieldKeys())
    ensures forall k :: k in FieldKeys() <==> k.OfRequest?
  {
    FieldsDistinct();
    forall k: Key | k.OfRequest?
      ensures k in FieldKeys()
    {
      assert FieldKeys()[FieldPosition(k.field)] == k;
    }
  }

  lemma FieldsDistinct()
    ensures NoRepeat(FIELDS)
  {
  }

  function FieldPosition(f: Field): (i: nat)
    ensures i < |FIELDS| && FIELDS[i] == f
  {
    match f
    case LastProvenBlock => 0
    case RequestedEndBlock => 1
    case RootHash => 2
    case LeafIndex => 3
    case Rer => 4
    case Mer => 5
    case Ger => 6
    case BlockHash => 7
    case Timestamp => 8
  }

  lemma {:induction false} GerKeysAre(order: seq<string>)
    requires NoRepeat(order)
    ensures NoRepeat(GerKeys(order))
    ensures forall k :: k in GerKeys(order) <==> k.OfGer? && k.name in order
  {
    if order != [] {
      var front, name := order[..|order| - 1], order[|order| - 1];
      GerKeysAre(front);
      assert order == front + [name] && name !in front;
      KeysOfGerAre(name);
      NoRepeatAppend(GerKeys(front), KeysOfGer(name));
    }
  }

  lemma KeysOfGerAre(name: string)
    ensures NoRepeat(KeysOfGer(name)) && forall k :: k in KeysOfGer(name) <==> k.OfGer? && k.name == name
  {
    forall k: Key | k.OfGer? && k.name == name
      ensures k in KeysOfGer(name)
    {
      match k.gerField
      case GerBlockNumber => assert KeysOfGer(name)[0] == k;
      case GerBlockIndex => assert KeysOfGer(name)[1] == k;
      case GerLeafIndex => assert KeysOfGer(name)[2] == k;
    }
  }

  lemma {:induction false} ExitKeysAre(n: nat)
    ensures NoRepeat(ExitKeys(n))
    ensures forall k :: k in ExitKeys(n) <==> k.OfExit? && k.i < n
  {
    if n > 0 {
      ExitKeysAre(n - 1);
      KeysOfExitAre(n - 1);
      NoRepeatAppend(ExitKeys(n - 1), KeysOfExit(n - 1));
    }
  }

  lemma KeysOfExitAre(i: nat)
    ensures NoRepeat(KeysOfExit(i)) && forall k :: k in KeysOfExit(i) <==> k.OfExit? && k.i == i
  {
    forall k: Key | k.OfExit? && k.i == i
      ensures k in KeysOfExit(i)
    {
      match k.exitField
      case ExitBlockNumber => assert KeysOfExit(i)[0] == k;
      case ExitHash => assert KeysOfExit(i)[1] == k;
      case ExitGlobalIndex => assert KeysOfExit(i)[2] == k;
    }
  }

  /** All the insertions: fields, roots in some order, and the first n exits. */
  function AllKeys(order: seq<string>, n: nat): seq<Key> {
    FieldKeys() + GerKeys(order) + ExitKeys(n)
  }

  lemma AllKeysAre(inputs: AggchainProofInputs, order: seq<string>, keys: seq<Key>)
    requires NoRepeat(order) && forall n :: n in order <==> n in inputs.gerLeaves
    requires keys == AllKeys(order, |inputs.importedBridgeExits|)
    ensures NoRepeat(keys)
    ensures forall k :: k in keys <==> HasEntry(inputs, k)
  {
    var n := |inputs.importedBridgeExits|;
    FieldKeysAre();
    GerKeysAre(order);
    ExitKeysAre(n);
    NoRepeatAppend(FieldKeys(), GerKeys(order));
    NoRepeatAppend(FieldKeys() + GerKeys(order), ExitKeys(n));
    assert forall k :: k in keys <==> k in FieldKeys() || k in GerKeys(order) || k in ExitKeys(n);
  }

  /** `as_le_bytes` of an n-byte integer. */
  function ToLE(v: nat, n: nat): (r: seq<byte>)
    ensures |r| == n
  {
    if n == 0 then [] else [v % 256] + ToLE(v / 256, n - 1)
  }

  function Reversed(s: seq<byte>): (r: seq<byte>)
    ensures |r| == |s|
  {
    if s == [] then [] else Reversed(s[1..]) + [s[0]]
  }

  /** In little-endian form the low part of a number comes first. */
  lemma {:induction false} LowPartFirst(v: nat, low: nat, high: nat, m: nat, n: nat)
    requires low < Pow256(m) && v == low + Pow256(m) * high
    ensures ToLE(v, m + n) == ToLE(low, m) + ToLE(high, n)
  {
    if m > 0 {
      WithoutLowByte(v, low, Pow256(m - 1), high, Pow256(m - 1) * high);
      LowPartFirst(v / 256, low / 256, high, m - 1, n);
    } else {
      assert Pow256(0) * high == high;
    }
  }

  lemma WithoutLowByte(v: nat, low: nat, p: nat, high: nat, rest: nat)
    requires v == low + 256 * p * high && rest == p * high
    ensures v % 256 == low % 256 && v / 256 == low / 256 + rest
  {
    assert 256 * p * high == 256 * rest;
  }

  /** Little-endian bytes read backwards are the big-endian bytes. */
  lemma {:induction false} LittleEndianReversed(v: nat, n: nat)
    ensures Reversed(ToLE(v, n)) == ToBE(v, n)
  {
    if n > 0 {
      LittleEndianReversed(v / 256, n - 1);
      assert ToLE(v, n)[1..] == ToLE(v / 256, n - 1);
    }
  }

  /** One entry per field of the request, of each root and of each exit. */
  ghost predicate Describes(inputs: AggchainProofInputs, context: map<string, Bytestring>) {
    && (forall k :: HasEntry(inputs, k) ==> Render(k) in context && context[Render(k)] == Value(inputs, k))
    && (forall s :: s in context ==> exists k :: HasEntry(inputs, k) && Render(k) == s)
    && |context| == 9 + 3 * |inputs.gerLeaves| + 3 * |inputs.importedBridgeExits|
  }

  function ValueOf(inputs: AggchainProofInputs): Key -> Bytestring {
    k => if HasEntry(inputs, k) then Value(inputs, k) else []
  }

  /** The context after some insertions. */
  function Filled(inputs: AggchainProofInputs, keys: seq<Key>): map<string, Bytestring> {
    Fill(Render, ValueOf(inputs), keys)
  }

  lemma FilledSnoc(inputs: AggchainProofInputs, keys: seq<Key>, k: Key)
    requires HasEntry(inputs, k)
    ensures Filled(inputs, keys + [k]) == Filled(inputs, keys)[Render(k) := Value(inputs, k)]
  {
  }

  lemma FilledThrice(inputs: AggchainProofInputs, keys: seq<Key>, k0: Key, k1: Key, k2: Key)
    requires HasEntry(inputs, k0) && HasEntry(inputs, k1) && HasEntry(inputs, k2)
    ensures Filled(inputs, keys + [k0, k1, k2])
         == Filled(inputs, keys)[Render(k0) := Value(inputs, k0)][Render(k1) := Value(inputs, k1)]
                                [Render(k2) := Value(inputs, k2)]
  {
    var one := keys + [k0];
    var two := one + [k1];
    assert keys + [k0, k1, k2] == two + [k2];
    FilledSnoc(inputs, keys, k0);
    FilledSnoc(inputs, one, k1);
    FilledSnoc(inputs, two, k2);
  }

  lemma RenderIsInjective()
    ensures Injective(Render)
  {
    forall j, k | Render(j) == Render(k)
      ensures j == k
    {
      RenderInjective(j, k);
    }
  }

  lemma FilledDescribes(inputs: AggchainProofInputs, order: seq<string>)
    requires NoRepeat(order) && |order| == |inputs.gerLeaves| && forall n :: n in order <==> n in inputs.gerLeaves
    ensures Describes(inputs, Filled(inputs, AllKeys(order, |inputs.importedBridgeExits|)))
  {
    var keys := AllKeys(order, |inputs.importedBridgeExits|);
    AllKeysAre(inputs, order, keys);
    RenderIsInjective();
    NothingOverwritten(Render, ValueOf(inputs), keys);
    HeldDescribes(inputs, keys, Filled(inputs, keys));
  }

  lemma HeldDescribes(inputs: AggchainProofInputs, keys: seq<Key>, context: map<string, Bytestring>)
    requires Holds(Render, ValueOf(inputs), keys, context) && forall k :: k in keys <==> HasEntry(inputs, k)
    requires |keys| == 9 + 3 * |inputs.gerLeaves| + 3 * |inputs.importedBridgeExits|
    ensures Describes(inputs, context)
  {
  }

  /** The insertions of the fields. */
  method InsertFields(inputs: AggchainProofInputs) returns (context: map<string, Bytestring>)
    ensures context == Filled(inputs, FieldKeys())
  {
    context := map[];
    ghost var keys := FieldKeys();
    for i := 0 to |FIELDS|
      invariant context == Filled(inputs, keys[..i])
    {
      assert keys[..i + 1] == keys[..i] + [OfRequest(FIELDS[i])];
      FilledSnoc(inputs, keys[..i], OfRequest(FIELDS[i]));
      context := context[FieldName(FIELDS[i]) := FieldValue(inputs, FIELDS[i])];
    }
    assert keys[..|FIELDS|] == keys;
  }

  /** The three insertions of a root. */
  method InsertGer(inputs: AggchainProofInputs, name: string, context: map<string, Bytestring>, ghost keys: seq<Key>)
    returns (larger: map<string, Bytestring>)
    requires context == Filled(inputs, keys) && name in inputs.gerLeaves
    ensures larger == Filled(inputs, keys + KeysOfGer(name))
  {
    var ger := inputs.gerLeaves[name];
    FilledThrice(inputs, keys, OfGer(name, GerBlockNumber), OfGer(name, GerBlockIndex), OfGer(name, GerLeafIndex));
    larger := context[GerText(name, GerBlockNumber) := ToBE(ger.blockNumber, 8)];
    larger := larger[GerText(name, GerBlockIndex) := ToBE(ger.blockIndex, 8)];
    larger := larger[GerText(name, GerLeafIndex) := ToBE(ger.insertedGer.l1Leaf.l1InfoTreeIndex, 4)];
  }

  /** The three insertions of an exit. */
  method InsertExit(inputs: AggchainProofInputs, i: nat, context: map<string, Bytestring>, ghost keys: seq<Key>)
    returns (larger: map<string, Bytestring>)
    requires context == Filled(inputs, keys) && i < |inputs.importedBridgeExits|
    ensures larger == Filled(inputs, keys + KeysOfExit(i))
  {
    var ibe := inputs.importedBridgeExits[i];
    FilledThrice(inputs, keys, OfExit(i, ExitBlockNumber), OfExit(i, ExitHash), OfExit(i, ExitGlobalIndex));
    LittleEndianReversed(ibe.globalIndex, 32);
    larger := context[ExitText(i, ExitBlockNumber) := ToBE(ibe.blockNumber, 8)];
    larger := larger[ExitText(i, ExitHash) := ibe.bridgeExitHash];
    larger := larger[ExitText(i, ExitGlobalIndex) := Reversed(ToLE(ibe.globalIndex, 32))];
  }

  /** The names read so far, in order, are those not left to read. */
  ghost predicate ReadSoFar(order: seq<string>, names: set<string>, unread: set<string>) {
    && NoRepeat(order) && unread <= names && |order| == |names| - |unread|
    && forall n :: n in order <==> n in names - unread
  }

  lemma ReadOne(order: seq<string>, names: set<string>, unread: set<string>, name: string)
    requires ReadSoFar(order, names, unread) && name in unread
    ensures ReadSoFar(order + [name], names, unread - {name})
  {
    assert name !in order;
    NoRepeatAppend(order, [name]);
    assert |unread - {name}| == |unread| - 1;
  }

  /** The insertions of the roots, read in any order. */
  method InsertGers(inputs: AggchainProofInputs, fields: map<string, Bytestring>)
    returns (context: map<string, Bytestring>, ghost order: seq<string>)
    requires fields == Filled(inputs, FieldKeys())
    ensures NoRepeat(order) && |order| == |inputs.gerLeaves| && forall n :: n in order <==> n in inputs.gerLeaves
    ensures context == Filled(inputs, AllKeys(order, 0))
  {
    context, order := fields, [];
    var unread := inputs.gerLeaves.Keys;
    NoRootsYet();
    while unread != {}
      invariant ReadSoFar(order, inputs.gerLeaves.Keys, unread)
      invariant context == Filled(inputs, AllKeys(order, 0))
    {
      var name :| name in unread;
      ReadOne(order, inputs.gerLeaves.Keys, unread, name);
      unread := unread - {name};
      context := InsertGer(inputs, name, context, AllKeys(order, 0));
      OneMoreRoot(order, name);
      order := order + [name];
    }
  }

  lemma NoRootsYet()
    ensures AllKeys([], 0) == FieldKeys()
  {
  }

  lemma OneMoreRoot(order: seq<string>, name: string)
    ensures AllKeys(order + [name], 0) == AllKeys(order, 0) + KeysOfGer(name)
  {
    assert (order + [name])[..|order|] == order;
  }

  lemma OneMoreExit(order: seq<string>, i: nat)
    ensures AllKeys(order, i + 1) == AllKeys(order, i) + KeysOfExit(i)
  {
  }

  /** The insertions of the exits. */
  method InsertExits(inputs: AggchainProofInputs, gers: map<string, Bytestring>, ghost order: seq<string>)
    returns (context: map<string, Bytestring>)
    requires gers == Filled(inputs, AllKeys(order, 0))
    ensures context == Filled(inputs, AllKeys(order, |inputs.importedBridgeExits|))
  {
    context := gers;
    for i := 0 to |inputs.importedBridgeExits|
      invariant context == Filled(inputs, AllKeys(order, i))
    {
      context := InsertExit(inputs, i, context, AllKeys(order, i));
      OneMoreExit(order, i);
    }
  }

  /** `context`: no insertion overwrites another, so the count of entries is exact. */
  method Context(inputs: AggchainProofInputs) returns (context: map<string, Bytestring>)
    ensures Describes(inputs, context)
  {
    ghost var order: seq<string>;
    context := InsertFields(inputs);
    context, order := InsertGers(inputs, context);
    context := InsertExits(inputs, context, order);
    FilledDescribes(inputs, order);
  }

  // ----- Reading the map -----

  datatype Content = Number(n: nat) | Hash(digest: Digest)

  /** What the request says about a key. */
  function ContentOf(inputs: AggchainProofInputs, k: Key): Content
    requires HasEntry(inputs, k)
  {
    match k
    case OfRequest(LastProvenBlock) => Number(inputs.lastProvenBlock)
    case OfRequest(RequestedEndBlock) => Number(inputs.requestedEndBlock)
    case OfRequest(RootHash) => Hash(inputs.l1InfoTreeRootHash)
    case OfRequest(LeafIndex) => Number(inputs.l1InfoTreeLeaf.l1InfoTreeIndex)
    case OfRequest(Rer) => Hash(inputs.l1InfoTreeLeaf.rer)
    case OfRequest(Mer) => Hash(inputs.l1InfoTreeLeaf.mer)
    case OfRequest(Ger) => Hash(inputs.l1InfoTreeLeaf.inner.globalExitRoot)
    case OfRequest(BlockHash) => Hash(inputs.l1InfoTreeLeaf.inner.blockHash)
    case OfRequest(Timestamp) => Number(inputs.l1InfoTreeLeaf.inner.timestamp)
    case OfGer(name, GerBlockNumber) => Number(inputs.gerLeaves[name].blockNumber)
    case OfGer(name, GerBlockIndex) => Number(inputs.gerLeaves[name].blockIndex)
    case OfGer(name, GerLeafIndex) => Number(inputs.gerLeaves[name].insertedGer.l1Leaf.l1InfoTreeIndex)
    case OfExit(i, ExitBlockNumber) => Number(inputs.importedBridgeExits[i].blockNumber)
    case OfExit(i, ExitHash) => Hash(inputs.importedBridgeExits[i].bridgeExitHash)
    case OfExit(i, ExitGlobalIndex) => Number(inputs.importedBridgeExits[i].globalIndex)
  }

  /** Everything the request says is recovered from the context: a number from its big-endian bytes, a hash as it is. */
  lemma ContentRecovered(inputs: AggchainProofInputs, context: map<string, Bytestring>, k: Key)
    requires Describes(inputs, context) && HasEntry(inputs, k)
    ensures Render(k) in context
    ensures ContentOf(inputs, k)
         == if ContentOf(inputs, k).Number? then Number(FromBE(context[Render(k)])) else Hash(context[Render(k)])
  {
    NumberRead(inputs, k);
  }

  lemma NumberRead(inputs: AggchainProofInputs, k: Key)
    requires HasEntry(inputs, k)
    ensures ContentOf(inputs, k).Number? ==> FromBE(Value(inputs, k)) == ContentOf(inputs, k).n
    ensures ContentOf(inputs, k).Hash? ==> Value(inputs, k) == ContentOf(inputs, k).digest
  {
    if ContentOf(inputs, k).Number? {
      var n, bytes := ContentOf(inputs, k).n, Value(inputs, k);
      PowerWidths();
      assert bytes == ToBE(n, |bytes|) && n < Pow256(|bytes|);
      ReadWritten(n, |bytes|);
    }
  }

  /** An entry that holds a number in so many big-endian bytes. */
  ghost predicate HoldsNumber(context: map<string, Bytestring>, key: string, n: nat, width: nat) {
    key in context && |context[key]| == width && FromBE(context[key]) == n
  }

  ghost predicate HoldsHash(context: map<string, Bytestring>, key: string, digest: Digest) {
    key in context && context[key] == digest
  }

  lemma FieldEntry(inputs: AggchainProofInputs, context: map<string, Bytestring>, f: Field, name: string, width: nat)
    requires Describes(inputs, context) && name == FieldName(f) && width == |FieldValue(inputs, f)|
    ensures match ContentOf(inputs, OfRequest(f))
            case Number(n) => HoldsNumber(context, name, n, width)
            case Hash(digest) => HoldsHash(context, name, digest)
  {
    assert HasEntry(inputs, OfRequest(f)) && Render(OfRequest(f)) == name;
    NumberRead(inputs, OfRequest(f));
  }

  lemma LastProvenBlockEntry(inputs: AggchainProofInputs, context: map<string, Bytestring>)
    requires Describes(inputs, context)
    ensures HoldsNumber(context, "last_proven_block", inputs.lastProvenBlock, 8)
  {
    FieldEntry(inputs, context, LastProvenBlock, "last_proven_block", 8);
  }

  lemma RequestedEndBlockEntry(inputs: AggchainProofInputs, context: map<string, Bytestring>)
    requires Describes(inputs, context)
    ensures HoldsNumber(context, "requested_end_block", inputs.requestedEndBlock, 8)
  {
    FieldEntry(inputs, context, RequestedEndBlock, "requested_end_block", 8);
  }

  lemma RootHashEntry(inputs: AggchainProofInputs, context: map<string, Bytestring>)
    requires Describes(inputs, context)
    ensures HoldsHash(context, "l1_info_tree_root_hash", inputs.l1InfoTreeRootHash)
  {
    FieldEntry(inputs, context, RootHash, "l1_info_tree_root_hash", 32);
  }

  lemma LeafIndexEntry(inputs: AggchainProofInputs, context: map<string, Bytestring>)
    requires Describes(inputs, context)
    ensures HoldsNumber(context, "l1_info_tree_index", inputs.l1InfoTreeLeaf.l1InfoTreeIndex, 4)
  {
    FieldEntry(inputs, context, LeafIndex, "l1_info_tree_index", 4);
  }

  lemma RerEntry(inputs: AggchainProofInputs, context: map<string, Bytestring>)
    requires Describes(inputs, context)
    ensures HoldsHash(context, "l1_info_tree_rer", inputs.l1InfoTreeLeaf.rer)
  {
    FieldEntry(inputs, context, Rer, "l1_info_tree_rer", 32);
  }

  lemma MerEntry(inputs: AggchainProofInputs, context: map<string, Bytestring>)
    requires Describes(inputs, context)
    ensures HoldsHash(context, "l1_info_tree_mer", inputs.l1InfoTreeLeaf.mer)
  {
    FieldEntry(inputs, context, Mer, "l1_info_tree_mer", 32);
  }

  lemma GerEntry(inputs: AggchainProofInputs, context: map<string, Bytestring>)
    requires Describes(inputs, context)
    ensures HoldsHash(context, "l1_info_tree_ger", inputs.l1InfoTreeLeaf.inner.globalExitRoot)
  {
    FieldEntry(inputs, context, Ger, "l1_info_tree_ger", 32);
  }

  lemma BlockHashEntry(inputs: AggchainProofInputs, context: map<string, Bytestring>)
    requires Describes(inputs, context)
    ensures HoldsHash(context, "l1_info_tree_block_hash", inputs.l1InfoTreeLeaf.inner.blockHash)
  {
    FieldEntry(inputs, context, BlockHash, "l1_info_tree_block_hash", 32);
  }

  lemma TimestampEntry(inputs: AggchainProofInputs, context: map<string, Bytestring>)
    requires Describes(inputs, context)
    ensures HoldsNumber(context, "l1_info_tree_timestamp", inputs.l1InfoTreeLeaf.inner.timestamp, 8)
  {
    FieldEntry(inputs, context, Timestamp, "l1_info_tree_timestamp", 8);
  }

  /** The entries of the request under their names: its two block numbers and the root of the L1 tree. */
  lemma RequestEntries(inputs: AggchainProofInputs, context: map<string, Bytestring>)
    requires Describes(inputs, context)
    ensures HoldsNumber(context, "last_proven_block", inputs.lastProvenBlock, 8)
    ensures HoldsNumber(context, "requested_end_block", inputs.requestedEndBlock, 8)
    ensures HoldsHash(context, "l1_info_tree_root_hash", inputs.l1InfoTreeRootHash)
  {
    LastProvenBlockEntry(inputs, context);
    RequestedEndBlockEntry(inputs, context);
    RootHashEntry(inputs, context);
  }

  /** The entries of the leaf of the L1 tree: its index and its two roots. */
  lemma LeafEntries(inputs: AggchainProofInputs, context: map<string, Bytestring>)
    requires Describes(inputs, context)
    ensures HoldsNumber(context, "l1_info_tree_index", inputs.l1InfoTreeLeaf.l1InfoTreeIndex, 4)
    ensures HoldsHash(context, "l1_info_tree_rer", inputs.l1InfoTreeLeaf.rer)
    ensures HoldsHash(context, "l1_info_tree_mer", inputs.l1InfoTreeLeaf.mer)
  {
    LeafIndexEntry(inputs, context);
    RerEntry(inputs, context);
    MerEntry(inputs, context);
  }

  /** The entries of the inner part of that leaf. */
  lemma InnerLeafEntries(inputs: AggchainProofInputs, context: map<string, Bytestring>)
    requires Describes(inputs, context)
    ensures HoldsHash(context, "l1_info_tree_ger", inputs.l1InfoTreeLeaf.inner.globalExitRoot)
    ensures HoldsHash(context, "l1_info_tree_block_hash", inputs.l1InfoTreeLeaf.inner.blockHash)
    ensures HoldsNumber(context, "l1_info_tree_timestamp", inputs.l1InfoTreeLeaf.inner.timestamp, 8)
  {
    GerEntry(inputs, context);
    BlockHashEntry(inputs, context);
    TimestampEntry(inputs, context);
  }

  /** The entries of a root under its name. */
  lemma RootEntries(inputs: AggchainProofInputs, context: map<string, Bytestring>, name: string)
    requires Describes(inputs, context) && name in inputs.gerLeaves
    ensures var ger := inputs.gerLeaves[name];
            && HoldsNumber(context, "ger/" + name + "/block_number", ger.blockNumber, 8)
            && HoldsNumber(context, "ger/" + name + "/block_index", ger.blockIndex, 8)
            && HoldsNumber(context, "ger/" + name + "/l1_leaf_index", ger.insertedGer.l1Leaf.l1InfoTreeIndex, 4)
  {
    var numberKey, indexKey, leafKey := OfGer(name, GerBlockNumber), OfGer(name, GerBlockIndex),
                                        OfGer(name, GerLeafIndex);
    assert HasEntry(inputs, numberKey) && HasEntry(inputs, indexKey) && HasEntry(inputs, leafKey);
    NumberRead(inputs, numberKey);
    NumberRead(inputs, indexKey);
    NumberRead(inputs, leafKey);
    assert Render(numberKey) == "ger/" + name + "/block_number";
    assert Render(indexKey) == "ger/" + name + "/block_index";
    assert Render(leafKey) == "ger/" + name + "/l1_leaf_index";
  }

  /** The entries of an exit under its position in decimal. */
  lemma ExitEntries(inputs: AggchainProofInputs, context: map<string, Bytestring>, i: nat)
    requires Describes(inputs, context) && i < |inputs.importedBridgeExits|
    ensures var exit := inputs.importedBridgeExits[i];
            && HoldsNumber(context, "ibe/" + Decimal(i) + "/block_number", exit.blockNumber, 8)
            && HoldsHash(context, "ibe/" + Decimal(i) + "/bridge_exit_hash", exit.bridgeExitHash)
            && HoldsNumber(context, "ibe/" + Decimal(i) + "/global_index", exit.globalIndex, 32)
  {
    var numberKey, hashKey, indexKey := OfExit(i, ExitBlockNumber), OfExit(i, ExitHash), OfExit(i, ExitGlobalIndex);
    assert HasEntry(inputs, numberKey) && HasEntry(inputs, hashKey) && HasEntry(inputs, indexKey);
    NumberRead(inputs, numberKey);
    NumberRead(inputs, indexKey);
    assert Render(numberKey) == "ibe/" + Decimal(i) + "/block_number";
    assert Render(hashKey) == "ibe/" + Decimal(i) + "/bridge_exit_hash";
    assert Render(indexKey) == "ibe/" + Decimal(i) + "/global_index";
  }

  /** The three keys that the RPC layer adds are new. */
  lemma RpcKeysAreFresh(k: Key)
    ensures Render(k) !in {"public_values", "local_exit_root_hash", "end_block"}
    ensures |{"public_values", "local_exit_root_hash", "end_block"}| == 3
  {
    assert |{"public_values", "local_exit_root_hash"}| == 2;
    assert "public_values"[0] == 'p' && "end_block"[0] == 'e';
    assert |"local_exit_root_hash"| == 20 && "local_exit_root_hash"[0] == 'l';
    assert Render(k)[0] == 'l' ==> |Render(k)| != 20;
  }
}
