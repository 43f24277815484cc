/**
  The counting filter of the bridge verifier: skip one occurrence of a value for
  each time its key was removed. The specification says which positions survive;
  `FilterValues` is the map-of-counters loop that computes it.
 */
module CountingFilter {
  import opened Results

  datatype FilterError = HashChainOverflow

  /** The keys of the values, in order. */
  function Keys<K, V>(values: seq<V>, key: V -> K): (ks: seq<K>)
    ensures |ks| == |values|
  {
    seq(|values|, i requires 0 <= i < |values| => key(values[i]))
  }

  ghost function KeyBag<K, V>(values: seq<V>, key: V -> K): multiset<K> {
    multiset(Keys(values, key))
  }

  /**
    Position j survives exactly when its key already occurred, before j, at least
    as many times as it was removed.
   */
  ghost predicate Survives<K>(removed: multiset<K>, ks: seq<K>, j: nat)
    requires j < |ks|
  {
    multiset(ks[..j])[ks[j]] >= removed[ks[j]]
  }

  ghost function Kept<K>(removed: multiset<K>, ks: seq<K>): (flags: seq<bool>)
    ensures |flags| == |ks|
  {
    seq(|ks|, j requires 0 <= j < |ks| => Survives(removed, ks, j))
  }

  /** The values whose flag is set, in order. */
  ghost function Select<V>(values: seq<V>, flags: seq<bool>): seq<V>
    requires |values| == |flags|
  {
    if values == [] then []
    else
      var n := |values| - 1;
      Select(values[..n], flags[..n]) + (if flags[n] then [values[n]] else [])
  }

  ghost function Survivors<K, V>(removed: multiset<K>, values: seq<V>, key: V -> K): seq<V> {
    Select(values, Kept(removed, Keys(values, key)))
  }

  /**
    The survivors are the values at the surviving positions, each once and in order: position j
    is one of them exactly when its key occurred before it as often as it was removed.
   */
  lemma SurvivorsByPosition<K, V>(removed: multiset<K>, values: seq<V>, key: V -> K) returns (positions: seq<nat>)
    ensures |positions| == |Survivors(removed, values, key)|
    ensures forall a, b :: 0 <= a < b < |positions| ==> positions[a] < positions[b]
    ensures forall a :: 0 <= a < |positions|
                    ==> positions[a] < |values| && Survivors(removed, values, key)[a] == values[positions[a]]
    ensures forall j :: 0 <= j < |values|
                    ==> var k := key(values[j]);
                        j in positions <==> multiset(Keys(values, key)[..j])[k] >= removed[k]
  {
    var flags := Kept(removed, Keys(values, key));
    positions := Positions(flags);
    SelectedAt(values, flags);
    forall j | 0 <= j < |values|
      ensures j in positions <==> multiset(Keys(values, key)[..j])[key(values[j])] >= removed[key(values[j])]
    {
      assert flags[j] <==> Survives(removed, Keys(values, key), j);
    }
  }

  /** The positions of the set flags, in order. */
  ghost function Positions(flags: seq<bool>): (positions: seq<nat>)
    ensures forall a :: 0 <= a < |positions| ==> positions[a] < |flags| && flags[positions[a]]
    ensures forall a, b :: 0 <= a < b < |positions| ==> positions[a] < positions[b]
    ensures forall j :: 0 <= j < |flags| && flags[j] ==> j in positions
  {
    if flags == [] then []
    else
      var n := |flags| - 1;
      var front := Positions(flags[..n]);
      assert forall j :: 0 <= j < n ==> flags[..n][j] == flags[j];
      if flags[n] then front + [n] else front
  }

  lemma {:induction false} SelectedAt<V>(values: seq<V>, flags: seq<bool>)
    requires |values| == |flags|
    ensures |Select(values, flags)| == |Positions(flags)|
    ensures forall a :: 0 <= a < |Positions(flags)| ==> Select(values, flags)[a] == values[Positions(flags)[a]]
  {
    if values != [] {
      var n := |values| - 1;
      SelectedAt(values[..n], flags[..n]);
      forall a | 0 <= a < |Positions(flags)|
        ensures Select(values, flags)[a] == values[Positions(flags)[a]]
      {
        if a < |Positions(flags[..n])| {
          assert Positions(flags)[a] == Positions(flags[..n])[a];
        }
      }
    }
  }

  lemma KeysAppend<K, V>(a: seq<V>, b: seq<V>, key: V -> K)
    ensures Keys(a + b, key) == Keys(a, key) + Keys(b, key)
    ensures KeyBag(a + b, key) == KeyBag(a, key) + KeyBag(b, key)
  {
  }

  /** A last value survives exactly when the removals of its key were used up before it. */
  lemma SurvivorsSnoc<K, V>(removed: multiset<K>, values: seq<V>, v: V, key: V -> K)
    ensures Survivors(removed, values + [v], key)
         == Survivors(removed, values, key) + (if KeyBag(values, key)[key(v)] >= removed[key(v)] then [v] else [])
  {
    var all, n := values + [v], |values|;
    var ks := Keys(all, key);
    assert all[..n] == values;
    assert ks[..n] == Keys(values, key);
    var flags := Kept(removed, ks);
    assert flags[..n] == Kept(removed, ks[..n]) by {
      forall j | 0 <= j < n
        ensures flags[j] == Kept(removed, ks[..n])[j]
      {
        assert ks[..n][..j] == ks[..j];
      }
    }
  }

  /** The survivors of the first values, then of the next ones against the removals left over. */
  lemma KeptAppend<K>(removed: multiset<K>, a: seq<K>, b: seq<K>)
    ensures Kept(removed, a + b) == Kept(removed, a) + Kept(removed - multiset(a), b)
  {
    forall j | 0 <= j < |a + b|
      ensures Kept(removed, a + b)[j] == (Kept(removed, a) + Kept(removed - multiset(a), b))[j]
    {
      if j < |a| {
        assert (a + b)[..j] == a[..j];
      } else {
        assert (a + b)[..j] == a + b[..j - |a|];
      }
    }
  }

  /** Conservation, key by key: kept plus min(removed, present) is present. */
  lemma {:induction false} KeptBag<K, V>(removed: multiset<K>, values: seq<V>, key: V -> K)
    ensures KeyBag(Survivors(removed, values, key), key) == KeyBag(values, key) - removed
  {
    if values == [] {
      assert Keys(values, key) == [];
    } else {
      var n := |values| - 1;
      var front, v := values[..n], values[n];
      assert values == front + [v];
      var kept := Survivors(removed, front, key);
      KeptBag(removed, front, key);
      SurvivorsSnoc(removed, front, v, key);
      KeysAppend(front, [v], key);
      KeysAppend(kept, [v], key);
      assert Keys([v], key) == [key(v)];
      assert kept + [] == kept;
      BagSnoc(KeyBag(front, key), removed, key(v));
    }
  }

  lemma BagSnoc<K>(present: multiset<K>, removed: multiset<K>, k: K)
    ensures present + multiset{k} - removed
         == present - removed + (if present[k] >= removed[k] then multiset{k} else multiset{})
  {
  }

  /** Filtering by r1 ++ r2 is filtering by r1 and then by r2. */
  lemma {:induction false} FilterTwice<K, V>(r1: multiset<K>, r2: multiset<K>, values: seq<V>, key: V -> K)
    ensures Survivors(r1 + r2, values, key) == Survivors(r2, Survivors(r1, values, key), key)
  {
    if values == [] {
      assert Survivors(r1, values, key) == [];
    } else {
      var n := |values| - 1;
      var front, v := values[..n], values[n];
      assert values == front + [v];
      var first, k := Survivors(r1, front, key), key(v);
      FilterTwice(r1, r2, front, key);
      SurvivorsSnoc(r1 + r2, front, v, key);
      SurvivorsSnoc(r1, front, v, key);
      if KeyBag(front, key)[k] >= r1[k] {
        KeptBag(r1, front, key);
        SurvivorsSnoc(r2, first, v, key);
      } else {
        assert first + [] == first;
      }
    }
  }

  /** Nothing removed, nothing skipped. */
  lemma {:induction false} NothingRemoved<K, V>(values: seq<V>, key: V -> K)
    ensures Survivors(multiset{}, values, key) == values
  {
    if values != [] {
      var n := |values| - 1;
      assert values == values[..n] + [values[n]];
      NothingRemoved(values[..n], key);
      SurvivorsSnoc(multiset{}, values[..n], values[n], key);
    }
  }

  /** A removal of a key that no survivor has changes nothing. */
  lemma {:induction false} Untouched<K, V>(removed: multiset<K>, values: seq<V>, key: V -> K)
    requires KeyBag(values, key) !! removed
    ensures Survivors(removed, values, key) == values
  {
    if values != [] {
      var n := |values| - 1;
      var front, v := values[..n], values[n];
      assert values == front + [v];
      KeysAppend(front, [v], key);
      assert Keys([v], key) == [key(v)];
      assert key(v) in KeyBag(values, key);
      Untouched(removed, front, key);
      SurvivorsSnoc(removed, front, v, key);
    }
  }

  /** Dropped values and unused removals account for every removal, and survivors for the rest. */
  lemma RemovalsAccountedFor<K, V>(removed: seq<K>, values: seq<V>, key: V -> K)
    ensures var left := multiset(removed) - KeyBag(values, key);
            |left| + (|values| - |Survivors(multiset(removed), values, key)|) == |removed|
  {
    var r, present := multiset(removed), KeyBag(values, key);
    KeptBag(r, values, key);
    var kept := Survivors(r, values, key);
    assert |Keys(kept, key)| == |present - r|;
    assert (present - r) + (r * present) == present;
    assert (r - present) + (r * present) == r;
    assert |present - r| + |r * present| == |present|;
    assert |r - present| + |r * present| == |r|;
  }

  /**
    When two ranges are joined, the same positions survive exactly when no removal
    of the second reaches a survivor of the first and no unused removal of the first
    reaches a survivor of the second.
   */
  lemma JoinedRangesKeepSamePositions<K, V>(r1: multiset<K>, a: seq<V>, r2: multiset<K>, b: seq<V>, key: V -> K)
    ensures Kept(r1 + r2, Keys(a + b, key)) == Kept(r1, Keys(a, key)) + Kept(r2, Keys(b, key))
       <==> (&& r2 !! KeyBag(Survivors(r1, a, key), key)
             && (r1 - KeyBag(a, key)) !! KeyBag(Survivors(r2, b, key), key))
  {
    KeysAppend(a, b, key);
    KeptBag(r1, a, key);
    KeptBag(r2, b, key);
    var ka, kb := Keys(a, key), Keys(b, key);
    var left := r1 + r2 - multiset(ka);
    KeptAppend(r1 + r2, ka, kb);
    Halves(Kept(r1 + r2, ka), Kept(left, kb), Kept(r1, ka), Kept(r2, kb));
    SameKept(r1 + r2, r1, ka);
    SameKept(left, r2, kb);
    JoinedBags(r1, multiset(ka), r2, multiset(kb));
  }

  lemma Halves<T>(f: seq<T>, g: seq<T>, f': seq<T>, g': seq<T>)
    requires |f| == |f'| && |g| == |g'|
    ensures f + g == f' + g' <==> f == f' && g == g'
  {
    if f + g == f' + g' {
      assert f == (f + g)[..|f|] && f' == (f' + g')[..|f|];
      assert g == (f + g)[|f|..] && g' == (f' + g')[|f|..];
    }
  }

  /** The counting core of joining two ranges with removals r, s and present keys a, b. */
  lemma JoinedBags<K>(r: multiset<K>, a: multiset<K>, s: multiset<K>, b: multiset<K>)
    ensures ((r + s) * a == r * a && (r + s - a) * b == s * b) <==> (s !! (a - r) && (r - a) !! (b - s))
  {
    if (r + s) * a == r * a && (r + s - a) * b == s * b {
      forall k
        ensures k in s ==> k !in a - r
        ensures k in r - a ==> k !in b - s
      {
        assert ((r + s) * a)[k] == (r * a)[k] && ((r + s - a) * b)[k] == (s * b)[k];
      }
    }
    if s !! (a - r) && (r - a) !! (b - s) {
      forall k
        ensures ((r + s) * a)[k] == (r * a)[k] && ((r + s - a) * b)[k] == (s * b)[k]
      {
        assert !(k in s && k in a - r) && !(k in r - a && k in b - s);
      }
    }
  }

  /** Two bags of removals keep the same positions exactly when they agree on each key up to its presence. */
  lemma SameKept<K>(r: multiset<K>, s: multiset<K>, ks: seq<K>)
    ensures Kept(r, ks) == Kept(s, ks) <==> r * multiset(ks) == s * multiset(ks)
  {
    if r * multiset(ks) == s * multiset(ks) {
      forall j | 0 <= j < |ks|
        ensures Survives(r, ks, j) == Survives(s, ks, j)
      {
        FewerBefore(ks, j);
        assert (r * multiset(ks))[ks[j]] == (s * multiset(ks))[ks[j]];
      }
    } else {
      var k :| (r * multiset(ks))[k] != (s * multiset(ks))[k];
      var low := if r[k] < s[k] then r[k] else s[k];
      var j := Occurrence(ks, k, low);
      assert Kept(r, ks)[j] != Kept(s, ks)[j];
    }
  }

  lemma FewerBefore<K>(ks: seq<K>, j: nat)
    requires j < |ks|
    ensures multiset(ks[..j])[ks[j]] < multiset(ks)[ks[j]]
  {
    assert ks == ks[..j] + ([ks[j]] + ks[j + 1..]);
  }

  /** The position of the occurrence of k that has n occurrences before it. */
  lemma {:induction false} Occurrence<K>(ks: seq<K>, k: K, n: nat) returns (j: nat)
    requires n < multiset(ks)[k]
    ensures j < |ks| && ks[j] == k && multiset(ks[..j])[k] == n
  {
    var m := |ks| - 1;
    assert ks == ks[..m] + [ks[m]];
    if n < multiset(ks[..m])[k] {
      j := Occurrence(ks[..m], k, n);
      assert ks[..m][..j] == ks[..j];
    } else {
      j := m;
    }
  }

  /** No removal of the later range reaches an earlier survivor, nor an unused earlier removal a later survivor. */
  ghost predicate Separate<K, V>(r: seq<K>, a: seq<V>, s: seq<K>, b: seq<V>, key: V -> K) {
    && multiset(s) !! KeyBag(Survivors(multiset(r), a, key), key)
    && (multiset(r) - KeyBag(a, key)) !! KeyBag(Survivors(multiset(s), b, key), key)
  }

  /** Without the condition: a value inserted in the first range and removed in the second survives only apart. */
  lemma RemovedAcrossRanges()
    ensures var key := (v: int) => v;
            var apart := Survivors(multiset{}, [7], key) + Survivors(multiset{7}, [], key);
            apart == [7] && Survivors(multiset{} + multiset{7}, [7] + [], key) == []
  {
    var key := (v: int) => v;
    var none: seq<int> := [];
    NothingRemoved([7], key);
    assert Keys(none, key) == [] && Keys([7], key) == [7];
    assert Survivors(multiset{7}, none, key) == [];
    assert none + [7] == [7] && [7] + none == [7];
    assert multiset{} + multiset{7} == multiset{7};
    SurvivorsSnoc(multiset{7}, none, 7, key);
  }

  /** Joined ranges: sufficient condition for the survivors to be the survivors of each. */
  lemma JoinedRanges<K, V>(r1: multiset<K>, a: seq<V>, r2: multiset<K>, b: seq<V>, key: V -> K)
    requires r2 !! KeyBag(Survivors(r1, a, key), key)
    requires (r1 - KeyBag(a, key)) !! KeyBag(Survivors(r2, b, key), key)
    ensures Survivors(r1 + r2, a + b, key) == Survivors(r1, a, key) + Survivors(r2, b, key)
  {
    JoinedRangesKeepSamePositions(r1, a, r2, b, key);
    KeysAppend(a, b, key);
    SelectAppend(a, b, Kept(r1, Keys(a, key)), Kept(r2, Keys(b, key)));
  }

  predicate Distinct<V(==)>(values: seq<V>) {
    forall i, j :: 0 <= i < j < |values| ==> values[i] != values[j]
  }

  /** Selections from a list without repetition are equal only for equal flags. */
  lemma {:induction false} SelectionsDiffer<V>(values: seq<V>, f: seq<bool>, g: seq<bool>)
    requires Distinct(values) && |f| == |g| == |values| && Select(values, f) == Select(values, g)
    ensures f == g
  {
    if values != [] {
      var n := |values| - 1;
      var s, t := Select(values[..n], f[..n]), Select(values[..n], g[..n]);
      SelectedFrom(values[..n], f[..n], values[n]);
      SelectedFrom(values[..n], g[..n], values[n]);
      LastTells(s, f[n], t, g[n], values[n]);
      SelectionsDiffer(values[..n], f[..n], g[..n]);
      assert f == f[..n] + [f[n]] && g == g[..n] + [g[n]];
    }
  }

  /** Whether a value that is in neither list was appended is seen from the result. */
  lemma LastTells<V>(s: seq<V>, atS: bool, t: seq<V>, atT: bool, v: V)
    requires v !in s && v !in t
    requires s + (if atS then [v] else []) == t + (if atT then [v] else [])
    ensures atS == atT && s == t
  {
    var all := s + (if atS then [v] else []);
    assert v in all <==> atS;
    assert v in all <==> atT;
    assert s == all[..if atS then |all| - 1 else |all|];
  }

  lemma {:induction false} SelectedFrom<V>(values: seq<V>, flags: seq<bool>, v: V)
    requires |values| == |flags|
    ensures v in Select(values, flags) ==> v in values
  {
    if values != [] {
      SelectedFrom(values[..|values| - 1], flags[..|values| - 1], v);
    }
  }

  /** For lists that share no value and repeat none, the condition is exact for the survivors themselves. */
  lemma JoinedDistinctRanges<K, V>(r1: multiset<K>, a: seq<V>, r2: multiset<K>, b: seq<V>, key: V -> K)
    requires Distinct(a + b)
    ensures Survivors(r1 + r2, a + b, key) == Survivors(r1, a, key) + Survivors(r2, b, key)
       <==> (&& r2 !! KeyBag(Survivors(r1, a, key), key)
             && (r1 - KeyBag(a, key)) !! KeyBag(Survivors(r2, b, key), key))
  {
    var apart := Kept(r1, Keys(a, key)) + Kept(r2, Keys(b, key));
    JoinedRangesKeepSamePositions(r1, a, r2, b, key);
    SelectAppend(a, b, Kept(r1, Keys(a, key)), Kept(r2, Keys(b, key)));
    if Survivors(r1 + r2, a + b, key) == Survivors(r1, a, key) + Survivors(r2, b, key) {
      SelectionsDiffer(a + b, Kept(r1 + r2, Keys(a + b, key)), apart);
    }
  }

  /**
    For any lists, what equal survivors need, key by key: the later range does not both remove more than it
    inserts and meet survivors of the earlier; nor has the earlier unused removals that meet survivors of the later.
   */
  lemma JoinedSurvivorsNeed<K, V>(r1: multiset<K>, a: seq<V>, r2: multiset<K>, b: seq<V>, key: V -> K, k: K)
    requires Survivors(r1 + r2, a + b, key) == Survivors(r1, a, key) + Survivors(r2, b, key)
    ensures !(KeyBag(a, key)[k] > r1[k] && r2[k] > KeyBag(b, key)[k])
    ensures !(r1[k] > KeyBag(a, key)[k] && KeyBag(b, key)[k] > r2[k])
  {
    KeptBag(r1, a, key);
    KeptBag(r2, b, key);
    KeptBag(r1 + r2, a + b, key);
    KeysAppend(a, b, key);
    KeysAppend(Survivors(r1, a, key), Survivors(r2, b, key), key);
    var joined := KeyBag(a, key) + KeyBag(b, key) - (r1 + r2);
    assert joined == (KeyBag(a, key) - r1) + (KeyBag(b, key) - r2);
    assert joined[k] == (KeyBag(a, key) - r1)[k] + (KeyBag(b, key) - r2)[k];
  }

  /** Equal survivors at other positions: inserted, then removed and inserted again. */
  lemma ReinsertedAcrossRanges()
    ensures var key := (v: int) => v;
            && Survivors(multiset{} + multiset{7}, [7] + [7], key)
               == Survivors(multiset{}, [7], key) + Survivors(multiset{7}, [7], key) == [7]
            && !Separate([], [7], [7], [7], key)
  {
    var key := (v: int) => v;
    var none: seq<int> := [];
    NothingRemoved([7], key);
    assert Keys(none, key) == [] && Keys([7], key) == [7];
    assert none + [7] == [7] && [7] + none == [7];
    assert multiset{} + multiset{7} == multiset{7};
    SurvivorsSnoc(multiset{7}, none, 7, key);
    SurvivorsSnoc(multiset{7}, [7], 7, key);
    assert 7 in multiset([7]) && 7 in KeyBag(Survivors(multiset(none), [7], key), key);
  }

  lemma {:induction false} SelectAppend<V>(a: seq<V>, b: seq<V>, f: seq<bool>, g: seq<bool>)
    requires |a| == |f| && |b| == |g|
    ensures Select(a + b, f + g) == Select(a, f) + Select(b, g)
  {
    if b == [] {
      assert a + b == a && f + g == f;
    } else {
      var n := |b| - 1;
      SelectAppend(a, b[..n], f, g[..n]);
      assert (a + b)[..|a + b| - 1] == a + b[..n];
      assert (f + g)[..|a + b| - 1] == f + g[..n];
    }
  }

  /** Some key is removed more often than a machine word can count. */
  ghost predicate Overflows<K>(removed: seq<K>, usizeMax: nat) {
    exists k :: k in removed && multiset(removed)[k] > usizeMax
  }

  /** What `filter_values` returns. */
  ghost function FilterResult<K, V>(removed: seq<K>, values: seq<V>, key: V -> K, usizeMax: nat)
    : Result<seq<V>, FilterError>
  {
    if Overflows(removed, usizeMax) then Err(HashChainOverflow)
    else Ok(Survivors(multiset(removed), values, key))
  }

  /** A list whose length fits a machine word never overflows a counter. */
  lemma NoOverflowWhenLengthFits<K>(removed: seq<K>, usizeMax: nat)
    requires |removed| <= usizeMax
    ensures !Overflows(removed, usizeMax)
  {
  }

  /** The order of the removals matters neither to the result, overflow included, nor to what more removals leave. */
  lemma RemovalOrderIrrelevant<K, V>(removed: seq<K>, reordered: seq<K>, values: seq<V>, key: V -> K, usizeMax: nat)
    requires multiset(removed) == multiset(reordered)
    ensures FilterResult(removed, values, key, usizeMax) == FilterResult(reordered, values, key, usizeMax)
    ensures forall extra: seq<K> :: Survivors(multiset(removed + extra), values, key)
                                 == Survivors(multiset(extra), Survivors(multiset(reordered), values, key), key)
  {
    forall k
      ensures k in removed <==> k in reordered
    {
      assert k in multiset(removed) <==> k in multiset(reordered);
    }
    forall extra: seq<K>
      ensures Survivors(multiset(removed + extra), values, key)
           == Survivors(multiset(extra), Survivors(multiset(reordered), values, key), key)
    {
      assert multiset(removed + extra) == multiset(removed) + multiset(extra);
      FilterTwice(multiset(removed), multiset(extra), values, key);
    }
  }

  /** What the counters hold: the removals not yet used, for exactly the keys that were removed. */
  ghost predicate Counts<K>(counters: map<K, nat>, keys: multiset<K>, left: multiset<K>) {
    && (forall k :: k in counters ==> k in keys)
    && (forall k :: k in keys ==> k in counters)
    && (forall k :: k in counters ==> counters[k] == left[k])
  }

  /** One more removal counted. */
  lemma Counted<K>(counters: map<K, nat>, removed: seq<K>, i: nat, usizeMax: nat)
    requires i < |removed| && Counts(counters, multiset(removed[..i]), multiset(removed[..i]))
    ensures var count := if removed[i] in counters then counters[removed[i]] else 0;
            && (count + 1 > usizeMax ==> Overflows(removed, usizeMax))
            && (count + 1 <= usizeMax && !Overflows(removed[..i], usizeMax) ==> !Overflows(removed[..i + 1], usizeMax))
            && Counts(counters[removed[i] := count + 1], multiset(removed[..i + 1]), multiset(removed[..i + 1]))
  {
    assert removed[..i + 1] == removed[..i] + [removed[i]];
    assert removed == removed[..i + 1] + removed[i + 1..];
    assert multiset(removed) == multiset(removed[..i + 1]) + multiset(removed[i + 1..]);
    assert removed[i] in removed && multiset(removed)[removed[i]] >= multiset(removed[..i + 1])[removed[i]];
  }

  /** One more value examined: skipped when its counter is positive, kept otherwise. */
  lemma Examined<K, V>(counters: map<K, nat>, removed: multiset<K>, values: seq<V>, i: nat, key: V -> K)
    requires i < |values| && Counts(counters, removed, removed - KeyBag(values[..i], key))
    ensures var k := key(values[i]);
            var before, after := Survivors(removed, values[..i], key), Survivors(removed, values[..i + 1], key);
            var skip := k in counters && counters[k] > 0;
            && after == before + (if skip then [] else [values[i]])
            && Counts(if skip then counters[k := counters[k] - 1] else counters,
                      removed, removed - KeyBag(values[..i + 1], key))
  {
    assert values[..i + 1] == values[..i] + [values[i]];
    SurvivorsSnoc(removed, values[..i], values[i], key);
    KeysAppend(values[..i], [values[i]], key);
    assert Keys([values[i]], key) == [key(values[i])];
  }

  /** `filter_values`: counts the removals, then skips one value per count. */
  method FilterValues<K(==), V>(removed: seq<K>, values: seq<V>, key: V -> K, usizeMax: nat)
    returns (r: Result<seq<V>, FilterError>)
    ensures r == FilterResult(removed, values, key, usizeMax)
    ensures r.Err? <==> exists k :: k in removed && multiset(removed)[k] > usizeMax
  {
    var removalMap: map<K, nat> := map[];
    for i := 0 to |removed|
      invariant Counts(removalMap, multiset(removed[..i]), multiset(removed[..i]))
      invariant !Overflows(removed[..i], usizeMax)
    {
      Counted(removalMap, removed, i, usizeMax);
      var count := if removed[i] in removalMap then removalMap[removed[i]] else 0;
      if count + 1 > usizeMax {
        return Err(HashChainOverflow);
      }
      removalMap := removalMap[removed[i] := count + 1];
    }
    assert removed[..|removed|] == removed;

    var result: seq<V> := [];
    assert Keys(values[..0], key) == [];
    for i := 0 to |values|
      invariant Counts(removalMap, multiset(removed), multiset(removed) - KeyBag(values[..i], key))
      invariant result == Survivors(multiset(removed), values[..i], key)
    {
      Examined(removalMap, multiset(removed), values, i, key);
      var k := key(values[i]);
      if k in removalMap && removalMap[k] > 0 {
        removalMap := removalMap[k := removalMap[k] - 1];
      } else {
        result := result + [values[i]];
      }
    }
    assert values[..|values|] == values;
    return Ok(result);
  }
}
