/** The request of the agg-sender, and the order in which its global exit roots enter the hash chain. */
module AggchainInputs {
  import opened Bytes
  import opened Foreign
  import opened HashChain
  import opened BridgeConstraints

  datatype ProvenGer = ProvenGer(proofGerL1Root: MerkleProof, l1Leaf: L1InfoTreeLeaf)

  datatype GerWithBlockNumber = GerWithBlockNumber(blockNumber: U64, insertedGer: ProvenGer, blockIndex: U64)

  datatype ExitWithBlockNumber = ExitWithBlockNumber(blockNumber: U64, bridgeExitHash: Digest, globalIndex: U256)

  datatype AggchainProofInputs = AggchainProofInputs(
    lastProvenBlock: U64,
    requestedEndBlock: U64,
    l1InfoTreeRootHash: Digest,
    l1InfoTreeLeaf: L1InfoTreeLeaf,
    l1InfoTreeMerkleProof: MerkleProof,
    gerLeaves: map<string, GerWithBlockNumber>,
    importedBridgeExits: seq<ExitWithBlockNumber>
  )

  /** An inclusive range of block numbers, empty when first > last. */
  datatype BlockRange = BlockRange(first: U64, last: U64) {
    predicate Contains(n: U64) {
      first <= n <= last
    }
  }

  function Inserted(e: GerWithBlockNumber): InsertedGer {
    InsertedGer(e.insertedGer.proofGerL1Root, e.insertedGer.l1Leaf, e.blockNumber, e.blockIndex)
  }

  predicate SamePlace(x: InsertedGer, y: InsertedGer) {
    x.blockNumber == y.blockNumber && x.blockIndex == y.blockIndex
  }

  /** Order on (block number, block index). */
  predicate NotAfter(x: InsertedGer, y: InsertedGer) {
    x.blockNumber < y.blockNumber || (x.blockNumber == y.blockNumber && x.blockIndex <= y.blockIndex)
  }

  ghost predicate Sorted(s: seq<InsertedGer>) {
    forall i, j :: 0 <= i < j < |s| ==> NotAfter(s[i], s[j])
  }

  /** The names, among some, under which the map holds v in the range. */
  ghost function NamesOf(leaves: map<string, GerWithBlockNumber>, names: set<string>, range: BlockRange, v: InsertedGer)
    : set<string>
  {
    set n | n in names && n in leaves && range.Contains(leaves[n].blockNumber) && Inserted(leaves[n]) == v
  }

  /** The list holds each value as many times as the map does in the range, and is sorted. */
  ghost predicate SortedInRange(s: seq<InsertedGer>, leaves: map<string, GerWithBlockNumber>, range: BlockRange) {
    && Sorted(s)
    && forall v :: multiset(s)[v] == |NamesOf(leaves, leaves.Keys, range, v)|
  }

  /** No two different roots of the range claim the same place. */
  ghost predicate NoTies(leaves: map<string, GerWithBlockNumber>, range: BlockRange) {
    forall m, n :: m in leaves && n in leaves
                   && range.Contains(leaves[m].blockNumber) && range.Contains(leaves[n].blockNumber)
                   && SamePlace(Inserted(leaves[m]), Inserted(leaves[n]))
               ==> Inserted(leaves[m]) == Inserted(leaves[n])
  }

  /** By block number, and within a block by index. */
  ghost predicate Ascending(s: seq<InsertedGer>) {
    forall i, j :: 0 <= i < j < |s|
              ==> || s[i].blockNumber < s[j].blockNumber
                  || (s[i].blockNumber == s[j].blockNumber && s[i].blockIndex <= s[j].blockIndex)
  }

  /** The names of the map entries of the range that carry the proof, leaf, block and index of a root. */
  ghost function EntriesOf(leaves: map<string, GerWithBlockNumber>, range: BlockRange, v: InsertedGer): set<string> {
    set n | && n in leaves && range.first <= leaves[n].blockNumber <= range.last
            && leaves[n].blockNumber == v.blockNumber && leaves[n].blockIndex == v.blockIndex
            && leaves[n].insertedGer.proofGerL1Root == v.proof && leaves[n].insertedGer.l1Leaf == v.l1InfoTreeLeaf
  }

  /** What a sorted list of the range is, in terms of the entries of the map. */
  lemma SortedListSays(s: seq<InsertedGer>, leaves: map<string, GerWithBlockNumber>, range: BlockRange)
    ensures SortedInRange(s, leaves, range)
       <==> Ascending(s) && forall v :: multiset(s)[v] == |EntriesOf(leaves, range, v)|
  {
    assert Sorted(s) <==> Ascending(s) by {
      AscendingIsSorted(s);
    }
    forall v
      ensures NamesOf(leaves, leaves.Keys, range, v) == EntriesOf(leaves, range, v)
    {
    }
  }

  lemma AscendingIsSorted(s: seq<InsertedGer>)
    ensures Sorted(s) <==> Ascending(s)
  {
  }

  lemma Listed(s: seq<InsertedGer>, leaves: map<string, GerWithBlockNumber>, range: BlockRange, v: InsertedGer)
    requires SortedInRange(s, leaves, range)
    ensures v in s <==> exists n :: n in leaves && range.Contains(leaves[n].blockNumber) && Inserted(leaves[n]) == v
  {
    var names := NamesOf(leaves, leaves.Keys, range, v);
    assert multiset(s)[v] == |names|;
    if v in s {
      assert names != {};
      var n :| n in names;
    }
    if exists n :: n in leaves && range.Contains(leaves[n].blockNumber) && Inserted(leaves[n]) == v {
      var n :| n in leaves && range.Contains(leaves[n].blockNumber) && Inserted(leaves[n]) == v;
      assert n in names;
    }
  }

  ghost predicate PlacesDetermine(s: seq<InsertedGer>) {
    forall i, j :: 0 <= i < j < |s| && SamePlace(s[i], s[j]) ==> s[i] == s[j]
  }

  /** Sorted permutations of one another agree when equal places mean equal values. */
  lemma {:induction false} SortedUnique(s: seq<InsertedGer>, t: seq<InsertedGer>)
    requires Sorted(s) && Sorted(t) && multiset(s) == multiset(t)
    requires PlacesDetermine(s)
    ensures s == t
    decreases |s|
  {
    if s == [] {
      assert |multiset(t)| == |multiset(s)| == 0;
    } else {
      HeadsAgree(s, t);
      TailBag(s);
      TailBag(t);
      SortedUnique(s[1..], t[1..]);
      assert s == [s[0]] + s[1..] && t == [t[0]] + t[1..];
    }
  }

  lemma TailBag(s: seq<InsertedGer>)
    requires s != []
    ensures multiset(s[1..]) == multiset(s) - multiset{s[0]}
  {
    assert s == [s[0]] + s[1..];
  }

  lemma HeadsAgree(s: seq<InsertedGer>, t: seq<InsertedGer>)
    requires s != [] && Sorted(s) && Sorted(t) && multiset(s) == multiset(t)
    requires PlacesDetermine(s)
    ensures t != [] && s[0] == t[0]
  {
    assert |s| == |multiset(s)| == |t|;
    assert s[0] in multiset(t) && t[0] in multiset(s);
    var i :| 0 <= i < |t| && t[i] == s[0];
    var j :| 0 <= j < |s| && s[j] == t[0];
    assert i == 0 || NotAfter(t[0], t[i]);
    assert j == 0 || NotAfter(s[0], s[j]);
    assert SamePlace(s[0], s[j]);
  }

  lemma SameBag(s: seq<InsertedGer>, t: seq<InsertedGer>)
    requires forall v :: multiset(s)[v] == multiset(t)[v]
    ensures multiset(s) == multiset(t)
  {
  }

  /** Exchanging two different values at one place gives another sorted list of the range. */
  lemma Exchanged(s: seq<InsertedGer>, i: nat, j: nat, leaves: map<string, GerWithBlockNumber>, range: BlockRange)
    requires SortedInRange(s, leaves, range) && i < |s| && j < |s| && SamePlace(s[i], s[j])
    ensures SortedInRange(s[i := s[j]][j := s[i]], leaves, range)
  {
    var t := s[i := s[j]][j := s[i]];
    assert multiset(t) == multiset(s);
    SamePlacesSorted(s, t);
  }

  lemma SamePlacesSorted(s: seq<InsertedGer>, t: seq<InsertedGer>)
    requires Sorted(s) && |s| == |t| && forall k :: 0 <= k < |s| ==> SamePlace(s[k], t[k])
    ensures Sorted(t)
  {
    forall i, j | 0 <= i < j < |t|
      ensures NotAfter(t[i], t[j])
    {
      assert NotAfter(s[i], s[j]) && SamePlace(s[i], t[i]) && SamePlace(s[j], t[j]);
    }
  }

  /**
    Whatever order the hash map is read in and however the sort treats equal places, the list
    is the same: exactly when no two different roots of the range claim one place.
   */
  lemma OrderIsDetermined(s: seq<InsertedGer>, leaves: map<string, GerWithBlockNumber>, range: BlockRange)
    requires SortedInRange(s, leaves, range)
    ensures (forall t :: SortedInRange(t, leaves, range) ==> t == s) <==> NoTies(leaves, range)
  {
    if NoTies(leaves, range) {
      forall t | SortedInRange(t, leaves, range)
        ensures t == s
      {
        NoTiesIn(s, leaves, range);
        forall v
          ensures multiset(s)[v] == multiset(t)[v]
        {
          assert multiset(s)[v] == |NamesOf(leaves, leaves.Keys, range, v)|;
        }
        SameBag(s, t);
        SortedUnique(s, t);
      }
    } else {
      var m, n :| m in leaves && n in leaves
                  && range.Contains(leaves[m].blockNumber) && range.Contains(leaves[n].blockNumber)
                  && SamePlace(Inserted(leaves[m]), Inserted(leaves[n]))
                  && Inserted(leaves[m]) != Inserted(leaves[n]);
      Listed(s, leaves, range, Inserted(leaves[m]));
      Listed(s, leaves, range, Inserted(leaves[n]));
      var i :| 0 <= i < |s| && s[i] == Inserted(leaves[m]);
      var j :| 0 <= j < |s| && s[j] == Inserted(leaves[n]);
      Exchanged(s, i, j, leaves, range);
      assert s[i := s[j]][j := s[i]][i] != s[i];
    }
  }

  /** A root in the first place of a block, told apart by its index in the L1 tree. */
  function RootInFirstPlace(l1InfoTreeIndex: U32): GerWithBlockNumber {
    GerWithBlockNumber(1, ProvenGer(MerkleProof([], Zeros(32)),
                                    L1InfoTreeLeaf(l1InfoTreeIndex, Zeros(32), Zeros(32),
                                                   L1InfoTreeLeafInner(Zeros(32), Zeros(32), 0))), 0)
  }

  /** Without the condition: two roots at one place may be listed in either order. */
  lemma TwoRootsAtOnePlace()
    ensures var leaves := map["a" := RootInFirstPlace(0), "b" := RootInFirstPlace(1)];
            var x, y := Inserted(RootInFirstPlace(0)), Inserted(RootInFirstPlace(1));
            SortedInRange([x, y], leaves, BlockRange(1, 1)) && SortedInRange([y, x], leaves, BlockRange(1, 1)) && x != y
  {
    var leaves, range := map["a" := RootInFirstPlace(0), "b" := RootInFirstPlace(1)], BlockRange(1, 1);
    var x, y := Inserted(RootInFirstPlace(0)), Inserted(RootInFirstPlace(1));
    OneMoreName(leaves, {}, "a", range);
    OneMoreName(leaves, {"a"}, "b", range);
    assert leaves.Keys == {} + {"a"} + {"b"};
    assert multiset([x, y]) == multiset{x, y} == multiset([y, x]);
    forall v
      ensures multiset([x, y])[v] == multiset([y, x])[v] == |NamesOf(leaves, leaves.Keys, range, v)|
    {
      assert NamesOf(leaves, {}, range, v) == {};
    }
  }

  lemma NoTiesIn(s: seq<InsertedGer>, leaves: map<string, GerWithBlockNumber>, range: BlockRange)
    requires SortedInRange(s, leaves, range) && NoTies(leaves, range)
    ensures PlacesDetermine(s)
  {
    forall i, j | 0 <= i < j < |s| && SamePlace(s[i], s[j])
      ensures s[i] == s[j]
    {
      Listed(s, leaves, range, s[i]);
      Listed(s, leaves, range, s[j]);
    }
  }

  lemma NamesSplit(leaves: map<string, GerWithBlockNumber>, a: U64, m: U64, b: U64, v: InsertedGer)
    requires a <= m <= b && m + 1 < TWO64
    ensures |NamesOf(leaves, leaves.Keys, BlockRange(a + 1, b), v)|
         == |NamesOf(leaves, leaves.Keys, BlockRange(a + 1, m), v)|
            + |NamesOf(leaves, leaves.Keys, BlockRange(m + 1, b), v)|
  {
    var all := NamesOf(leaves, leaves.Keys, BlockRange(a + 1, b), v);
    var first := NamesOf(leaves, leaves.Keys, BlockRange(a + 1, m), v);
    var last := NamesOf(leaves, leaves.Keys, BlockRange(m + 1, b), v);
    assert if v.blockNumber <= m then all == first && last == {} else all == last && first == {};
  }

  /** The list of blocks a+1..b is the list of a+1..m followed by that of m+1..b. */
  lemma ListsOfAdjacentRanges(leaves: map<string, GerWithBlockNumber>, a: U64, m: U64, b: U64,
                              whole: seq<InsertedGer>, left: seq<InsertedGer>, right: seq<InsertedGer>)
    requires a <= m <= b && m + 1 < TWO64
    requires NoTies(leaves, BlockRange(a + 1, b))
    requires SortedInRange(whole, leaves, BlockRange(a + 1, b))
    requires SortedInRange(left, leaves, BlockRange(a + 1, m))
    requires SortedInRange(right, leaves, BlockRange(m + 1, b))
    ensures whole == left + right
  {
    forall x | x in left
      ensures x.blockNumber <= m
    {
      Listed(left, leaves, BlockRange(a + 1, m), x);
    }
    forall x | x in right
      ensures x.blockNumber > m
    {
      Listed(right, leaves, BlockRange(m + 1, b), x);
    }
    forall v
      ensures multiset(left + right)[v] == multiset(whole)[v]
    {
      NamesSplit(leaves, a, m, b, v);
      assert multiset(left)[v] == |NamesOf(leaves, leaves.Keys, BlockRange(a + 1, m), v)|;
      assert multiset(right)[v] == |NamesOf(leaves, leaves.Keys, BlockRange(m + 1, b), v)|;
    }
    SameBag(left + right, whole);
    NoTiesIn(whole, leaves, BlockRange(a + 1, b));
    SortedUnique(whole, left + right);
  }

  /** So the inserted-root chain of the whole range is that of its two halves in turn. */
  lemma ChainsOfAdjacentRanges(lib: Libraries, start: Digest, leaves: map<string, GerWithBlockNumber>,
                               a: U64, m: U64, b: U64,
                               whole: seq<InsertedGer>, left: seq<InsertedGer>, right: seq<InsertedGer>)
    requires a <= m <= b && m + 1 < TWO64
    requires NoTies(leaves, BlockRange(a + 1, b))
    requires SortedInRange(whole, leaves, BlockRange(a + 1, b))
    requires SortedInRange(left, leaves, BlockRange(a + 1, m))
    requires SortedInRange(right, leaves, BlockRange(m + 1, b))
    ensures Replay(lib.combine, start, GersOf(lib, whole))
         == Replay(lib.combine, Replay(lib.combine, start, GersOf(lib, left)), GersOf(lib, right))
  {
    ListsOfAdjacentRanges(leaves, a, m, b, whole, left, right);
    assert GersOf(lib, whole) == GersOf(lib, left) + GersOf(lib, right);
    ReplayAppend(lib.combine, start, GersOf(lib, left), GersOf(lib, right));
  }

  // ----- The code -----

  /** In-place sort on (block number, block index); equal places end in an order of its own. */
  method SortUnstableByPlace(values: array<InsertedGer>)
    modifies values
    ensures Ascending(values[..])
    ensures Sorted(values[..])
    ensures multiset(values[..]) == old(multiset(values[..]))
  {
    for i := 0 to values.Length
      invariant forall p, q :: 0 <= p < q < i ==> NotAfter(values[p], values[q])
      invariant multiset(values[..]) == old(multiset(values[..]))
    {
      var j := i;
      while j > 0 && !NotAfter(values[j - 1], values[j])
        invariant 0 <= j <= i
        invariant forall p, q :: 0 <= p < q <= i && q != j ==> NotAfter(values[p], values[q])
        invariant multiset(values[..]) == old(multiset(values[..]))
      {
        values[j - 1], values[j] := values[j], values[j - 1];
        j := j - 1;
      }
    }
    AscendingIsSorted(values[..]);
  }

  /** `AggchainProofInputs::sorted_inserted_gers`: reads the hash map in any order, then sorts. */
  method SortedInsertedGers(leaves: map<string, GerWithBlockNumber>, range: BlockRange)
    returns (values: seq<InsertedGer>)
    ensures SortedInRange(values, leaves, range)
    ensures Ascending(values)
    ensures forall v :: multiset(values)[v] == |EntriesOf(leaves, range, v)|
  {
    var unread := leaves.Keys;
    var collected: seq<InsertedGer> := [];
    while unread != {}
      invariant unread <= leaves.Keys
      invariant forall v :: multiset(collected)[v] == |NamesOf(leaves, leaves.Keys - unread, range, v)|
    {
      var name :| name in unread;
      ghost var before := leaves.Keys - unread;
      unread := unread - {name};
      OneMoreName(leaves, before, name, range);
      if range.Contains(leaves[name].blockNumber) {
        collected := collected + [Inserted(leaves[name])];
      }
      assert leaves.Keys - unread == before + {name};
    }
    assert leaves.Keys - unread == leaves.Keys;
    var sorting := new InsertedGer[|collected|](i requires 0 <= i < |collected| => collected[i]);
    assert sorting[..] == collected;
    SortUnstableByPlace(sorting);
    SortedListSays(sorting[..], leaves, range);
    return sorting[..];
  }

  lemma OneMoreName(leaves: map<string, GerWithBlockNumber>, names: set<string>, name: string, range: BlockRange)
    requires name in leaves && name !in names
    ensures forall v :: |NamesOf(leaves, names + {name}, range, v)|
                     == |NamesOf(leaves, names, range, v)|
                        + (if range.Contains(leaves[name].blockNumber) && Inserted(leaves[name]) == v then 1 else 0)
  {
    forall v
      ensures |NamesOf(leaves, names + {name}, range, v)|
           == |NamesOf(leaves, names, range, v)|
              + (if range.Contains(leaves[name].blockNumber) && Inserted(leaves[name]) == v then 1 else 0)
    {
      var fewer, more := NamesOf(leaves, names, range, v), NamesOf(leaves, names + {name}, range, v);
      if range.Contains(leaves[name].blockNumber) && Inserted(leaves[name]) == v {
        assert more == fewer + {name};
      } else {
        assert more == fewer;
      }
    }
  }
}
