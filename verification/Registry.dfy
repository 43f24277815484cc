/**
  The event-by-event machine behind the hash chains: the L2 contract that inserts and
  removes global exit roots (or claims and unsets global indices). The contract refuses
  to insert what is set and to remove what is not.
 */
module Registry {
  import opened Results
  import opened CountingFilter

  datatype Event<K, V> = Insert(value: V) | Remove(key: K)

  /**
    `prior` are the keys set before the range that are still set, `live` the insertions
    of this range that are still set; `inserted` and `removed` are the arguments of
    the calls, the lists that the two hash chains absorb.
   */
  datatype State<K, V> = State(prior: set<K>, live: seq<V>, inserted: seq<V>, removed: seq<K>)

  /** The values whose key is not in ks, in order. */
  function Outside<K(==), V>(values: seq<V>, key: V -> K, ks: set<K>): seq<V> {
    if values == [] then []
    else
      var n := |values| - 1;
      Outside(values[..n], key, ks) + (if key(values[n]) in ks then [] else [values[n]])
  }

  /** One call, or None when the contract reverts it. */
  function Step<K(==), V>(s: State<K, V>, e: Event<K, V>, key: V -> K): Option<State<K, V>> {
    match e
    case Insert(v) =>
      if key(v) in s.prior || key(v) in Keys(s.live, key) then None
      else Some(s.(live := s.live + [v], inserted := s.inserted + [v]))
    case Remove(k) =>
      if k in s.prior then Some(s.(prior := s.prior - {k}, removed := s.removed + [k]))
      else if k in Keys(s.live, key) then
        Some(s.(live := Outside(s.live, key, {k}), removed := s.removed + [k]))
      else None
  }

  function Start<K, V>(before: set<K>): State<K, V> {
    State(before, [], [], [])
  }

  /** The state after all the calls of a range, if none was reverted. */
  function Execute<K(==), V>(before: set<K>, events: seq<Event<K, V>>, key: V -> K): Option<State<K, V>> {
    if events == [] then Some(Start(before))
    else
      var n := |events| - 1;
      match Execute(before, events[..n], key)
      case None => None
      case Some(s) => Step(s, events[n], key)
  }

  lemma OutsideSnoc<K, V>(values: seq<V>, v: V, key: V -> K, ks: set<K>)
    ensures Outside(values + [v], key, ks) == Outside(values, key, ks) + (if key(v) in ks then [] else [v])
  {
  }

  lemma {:induction false} OutsideTwice<K, V>(values: seq<V>, key: V -> K, ks: set<K>, ls: set<K>)
    ensures Outside(Outside(values, key, ks), key, ls) == Outside(values, key, ks + ls)
  {
    if values != [] {
      var n := |values| - 1;
      OutsideTwice(values[..n], key, ks, ls);
      if key(values[n]) !in ks {
        OutsideSnoc(Outside(values[..n], key, ks), values[n], key, ls);
      } else {
        assert Outside(values, key, ks) == Outside(values[..n], key, ks);
      }
    }
  }

  lemma {:induction false} OutsideBag<K, V>(values: seq<V>, key: V -> K, ks: set<K>, k: K)
    ensures KeyBag(Outside(values, key, ks), key)[k] == if k in ks then 0 else KeyBag(values, key)[k]
  {
    if values == [] {
      assert Keys(values, key) == [];
    } else {
      var n := |values| - 1;
      var front, v := values[..n], values[n];
      assert values == front + [v];
      OutsideBag(front, key, ks, k);
      KeysAppend(front, [v], key);
      assert Keys([v], key) == [key(v)];
      var kept := Outside(front, key, ks);
      if key(v) in ks {
        assert Outside(values, key, ks) == kept;
      } else {
        KeysAppend(kept, [v], key);
      }
    }
  }

  lemma {:induction false} OutsideAll<K, V>(values: seq<V>, key: V -> K, ks: set<K>)
    ensures Outside(values, key, ks) == values <==> forall v :: v in values ==> key(v) !in ks
    ensures |Outside(values, key, ks)| <= |values|
  {
    if values != [] {
      var n := |values| - 1;
      assert values == values[..n] + [values[n]];
      OutsideAll(values[..n], key, ks);
      if Outside(values, key, ks) == values {
        assert |Outside(values, key, ks)| == n + 1;
        assert Outside(values, key, ks)[..n] == Outside(values[..n], key, ks);
      }
    }
  }

  ghost predicate NoTwice<K>(bag: multiset<K>) {
    forall k :: k in bag ==> bag[k] == 1
  }

  /** Skipping one occurrence of a key that occurs at most once is dropping the key. */
  lemma {:induction false} SkipOnlyOne<K, V>(values: seq<V>, key: V -> K, k: K)
    requires NoTwice(KeyBag(values, key))
    ensures Survivors(multiset{k}, values, key) == Outside(values, key, {k})
  {
    if values != [] {
      var n := |values| - 1;
      var front, v := values[..n], values[n];
      assert values == front + [v];
      KeysAppend(front, [v], key);
      assert Keys([v], key) == [key(v)];
      forall l | l in KeyBag(front, key)
        ensures KeyBag(front, key)[l] == 1
      {
        assert l in KeyBag(values, key);
      }
      SkipOnlyOne(front, key, k);
      SurvivorsSnoc(multiset{k}, front, v, key);
      assert key(v) in KeyBag(values, key) && KeyBag(values, key)[key(v)] == 1;
    }
  }

  /** What every run keeps. */
  ghost predicate Invariant<K, V>(before: set<K>, s: State<K, V>, key: V -> K) {
    && s.prior <= before
    && NoTwice(KeyBag(s.live, key))
    && multiset(s.prior) !! KeyBag(s.live, key)
    // keys ever set, counted with repetition, are the keys removed or still set
    && KeyBag(s.inserted, key) + multiset(before - s.prior) == multiset(s.removed) + KeyBag(s.live, key)
    // the batch filter is in step with the contract
    && Survivors(multiset(s.removed), s.inserted, key) == Outside(s.live, key, before)
  }

  lemma AddToBoth<K>(a: multiset<K>, b: multiset<K>, c: multiset<K>, d: multiset<K>, x: multiset<K>)
    requires a + b == c + d
    ensures (a + x) + b == c + (d + x) && a + (b + x) == (c + x) + d
  {
    assert (a + x) + b == (a + b) + x == a + (b + x);
  }

  lemma InsertKeeps<K, V>(before: set<K>, s: State<K, V>, v: V, key: V -> K)
    requires Invariant(before, s, key) && Step(s, Insert(v), key).Some?
    ensures Invariant(before, Step(s, Insert(v), key).value, key)
  {
    KeysAppend(s.live, [v], key);
    KeysAppend(s.inserted, [v], key);
    assert Keys([v], key) == [key(v)];
    SurvivorsSnoc(multiset(s.removed), s.inserted, v, key);
    OutsideSnoc(s.live, v, key, before);
    var t := Step(s, Insert(v), key).value;
    assert KeyBag(t.inserted, key) == KeyBag(s.inserted, key) + multiset{key(v)};
    assert KeyBag(t.live, key) == KeyBag(s.live, key) + multiset{key(v)};
    AddToBoth(KeyBag(s.inserted, key), multiset(before - s.prior), multiset(s.removed), KeyBag(s.live, key),
              multiset{key(v)});
    var total := KeyBag(s.inserted, key) + multiset(before - s.prior);
    assert total[key(v)] == (multiset(s.removed) + KeyBag(s.live, key))[key(v)];
  }

  lemma OutsideNoTwice<K, V>(values: seq<V>, key: V -> K, ks: set<K>)
    requires NoTwice(KeyBag(values, key))
    ensures NoTwice(KeyBag(Outside(values, key, ks), key))
  {
    var bag := KeyBag(Outside(values, key, ks), key);
    forall k | k in bag
      ensures bag[k] == 1
    {
      OutsideBag(values, key, ks, k);
      assert k in KeyBag(values, key);
    }
  }

  lemma {:induction false} OutsideOne<K, V>(values: seq<V>, key: V -> K, k: K)
    ensures KeyBag(Outside(values, key, {k}), key) == KeyBag(values, key)[k := 0]
  {
    if values == [] {
      assert Keys(values, key) == [];
    } else {
      var n := |values| - 1;
      var front, v := values[..n], values[n];
      var rest := Outside(front, key, {k});
      assert values == front + [v];
      OutsideOne(front, key, k);
      KeysAppend(front, [v], key);
      KeysAppend(rest, [v], key);
      assert Keys([v], key) == [key(v)];
      assert rest + [] == rest;
    }
  }

  /** Removing a key set before the range leaves the recent values alone. */
  lemma RemovePriorKeeps<K, V>(before: set<K>, s: State<K, V>, k: K, key: V -> K)
    requires Invariant(before, s, key) && k in s.prior
    ensures Invariant(before, s.(prior := s.prior - {k}, removed := s.removed + [k]), key)
  {
    var recent := Outside(s.live, key, before);
    assert multiset(s.removed + [k]) == multiset(s.removed) + multiset{k};
    FilterTwice(multiset(s.removed), multiset{k}, s.inserted, key);
    assert before - (s.prior - {k}) == (before - s.prior) + {k};
    assert multiset(before - (s.prior - {k})) == multiset(before - s.prior) + multiset{k};
    AddToBoth(KeyBag(s.inserted, key), multiset(before - s.prior), multiset(s.removed), KeyBag(s.live, key),
              multiset{k});
    OutsideBag(s.live, key, before, k);
    Untouched(multiset{k}, recent, key);
  }

  /** Removing a key inserted in the range drops its one live value. */
  lemma RemoveLiveKeeps<K, V>(before: set<K>, s: State<K, V>, k: K, key: V -> K)
    requires Invariant(before, s, key) && k in KeyBag(s.live, key)
    ensures Invariant(before, s.(live := Outside(s.live, key, {k}), removed := s.removed + [k]), key)
  {
    var rest := Outside(s.live, key, {k});
    OutsideOne(s.live, key, k);
    assert KeyBag(s.live, key) == KeyBag(rest, key) + multiset{k};
    OutsideNoTwice(s.live, key, {k});
    OutsideNoTwice(s.live, key, before);
    assert multiset(s.removed + [k]) == multiset(s.removed) + multiset{k};
    assert multiset(s.removed + [k]) + KeyBag(rest, key) == multiset(s.removed) + KeyBag(s.live, key);
    calc {
      Survivors(multiset(s.removed + [k]), s.inserted, key);
      { FilterTwice(multiset(s.removed), multiset{k}, s.inserted, key); }
      Survivors(multiset{k}, Outside(s.live, key, before), key);
      { SkipOnlyOne(Outside(s.live, key, before), key, k); }
      Outside(Outside(s.live, key, before), key, {k});
      { OutsideTwice(s.live, key, before, {k});
        OutsideTwice(s.live, key, {k}, before);
        assert before + {k} == {k} + before; }
      Outside(rest, key, before);
    }
  }

  lemma {:induction false} RunKeeps<K, V>(before: set<K>, events: seq<Event<K, V>>, key: V -> K)
    requires Execute(before, events, key).Some?
    ensures Invariant(before, Execute(before, events, key).value, key)
  {
    if events == [] {
      var none: seq<V> := [];
      assert Keys(none, key) == [];
    } else {
      var n := |events| - 1;
      RunKeeps(before, events[..n], key);
      var s := Execute(before, events[..n], key).value;
      match events[n]
      case Insert(v) => InsertKeeps(before, s, v, key);
      case Remove(k) =>
        if k in s.prior {
          RemovePriorKeeps(before, s, k, key);
        } else {
          RemoveLiveKeeps(before, s, k, key);
        }
    }
  }

  /**
    The batch filter against the event-by-event machine, for every run the contract
    accepts. The filter keeps exactly the live insertions of keys that were not set
    before the range; so it keeps exactly the live insertions unless a key set before
    the range was removed and inserted again, and is live.
   */
  lemma FilterRefinesRun<K, V>(before: set<K>, events: seq<Event<K, V>>, key: V -> K)
    requires Execute(before, events, key).Some?
    ensures var s := Execute(before, events, key).value;
            var kept := Survivors(multiset(s.removed), s.inserted, key);
            && kept == Outside(s.live, key, before)
            && (kept == s.live <==> forall v :: v in s.live ==> key(v) !in before)
  {
    RunKeeps(before, events, key);
    OutsideAll(Execute(before, events, key).value.live, key, before);
  }

  /** Every removal was of a key inserted in the range. */
  ghost predicate RemovesOnlyNew<K, V>(before: set<K>, events: seq<Event<K, V>>) {
    forall i :: 0 <= i < |events| && events[i].Remove? ==> events[i].key !in before
  }

  lemma {:induction false} OldKeysStay<K, V>(before: set<K>, events: seq<Event<K, V>>, key: V -> K)
    requires Execute(before, events, key).Some? && RemovesOnlyNew(before, events)
    ensures Execute(before, events, key).value.prior == before
  {
    if events != [] {
      var n := |events| - 1;
      assert RemovesOnlyNew(before, events[..n]) by {
        forall i | 0 <= i < n && events[..n][i].Remove?
          ensures events[..n][i].key !in before
        {
          assert events[i].Remove?;
        }
      }
      OldKeysStay(before, events[..n], key);
    }
  }

  /** When only keys of the range are removed, the filter returns the live insertions, in insertion order. */
  lemma FilterIsLive<K, V>(before: set<K>, events: seq<Event<K, V>>, key: V -> K)
    requires Execute(before, events, key).Some? && RemovesOnlyNew(before, events)
    ensures var s := Execute(before, events, key).value;
            Survivors(multiset(s.removed), s.inserted, key) == s.live
  {
    OldKeysStay(before, events, key);
    RunKeeps(before, events, key);
    LiveAreNew(before, Execute(before, events, key).value, key);
    FilterRefinesRun(before, events, key);
  }

  lemma LiveAreNew<K, V>(before: set<K>, s: State<K, V>, key: V -> K)
    requires s.prior == before && multiset(s.prior) !! KeyBag(s.live, key)
    ensures forall v :: v in s.live ==> key(v) !in before
  {
    forall v | v in s.live
      ensures key(v) !in before
    {
      var i :| 0 <= i < |s.live| && s.live[i] == v;
      assert Keys(s.live, key)[i] == key(v);
      assert key(v) in KeyBag(s.live, key);
    }
  }

  /** The keys set after a run. */
  ghost function SetAfter<K, V>(s: State<K, V>, key: V -> K): set<K> {
    s.prior + (set v | v in s.live :: key(v))
  }

  /**
    The machine keeps a set: a key can be inserted exactly when it is not set, removed exactly when it is,
    and a call changes the set and its own list of arguments by that key alone.
   */
  lemma StepsOnSet<K, V>(s: State<K, V>, v: V, k: K, key: V -> K)
    requires forall u :: u in s.live ==> key(u) !in s.prior
    ensures var t := Step(s, Insert(v), key);
            && (t.Some? <==> key(v) !in SetAfter(s, key))
            && (t.Some? ==> && SetAfter(t.value, key) == SetAfter(s, key) + {key(v)}
                            && t.value.inserted == s.inserted + [v] && t.value.removed == s.removed)
    ensures var t := Step(s, Remove(k), key);
            && (t.Some? <==> k in SetAfter(s, key))
            && (t.Some? ==> && SetAfter(t.value, key) == SetAfter(s, key) - {k}
                            && t.value.removed == s.removed + [k] && t.value.inserted == s.inserted)
  {
    KeyListed(s.live, key, key(v));
    KeyListed(s.live, key, k);
    forall u
      ensures u in Outside(s.live, key, {k}) <==> u in s.live && key(u) != k
    {
      OutsideHolds(s.live, key, {k}, u);
    }
    if Step(s, Remove(k), key).Some? {
      var t := Step(s, Remove(k), key).value;
      forall l
        ensures l in SetAfter(t, key) <==> l in SetAfter(s, key) - {k}
      {
        if u :| u in s.live && key(u) == l && l != k {
          assert u in t.live;
        }
        if u :| u in t.live && key(u) == l {
          assert u in s.live && l != k;
        }
      }
      assert SetAfter(t, key) == SetAfter(s, key) - {k};
    }
  }

  lemma {:induction false} OutsideHolds<K, V>(values: seq<V>, key: V -> K, ks: set<K>, v: V)
    ensures v in Outside(values, key, ks) <==> v in values && key(v) !in ks
  {
    if values != [] {
      var n := |values| - 1;
      OutsideHolds(values[..n], key, ks, v);
      assert values == values[..n] + [values[n]];
    }
  }

  /** Two runs, the second starting where the first ends. */
  datatype TwoRuns<!K, !V> = TwoRuns(before: set<K>, earlier: seq<Event<K, V>>, later: seq<Event<K, V>>) {

    /** No call of either run is reverted. */
    ghost predicate Accepted(key: V -> K) {
      && Execute(before, earlier, key).Some?
      && Execute(SetAfter(Execute(before, earlier, key).value, key), later, key).Some?
    }

    ghost function First(key: V -> K): State<K, V>
      requires Accepted(key)
    {
      Execute(before, earlier, key).value
    }

    ghost function Second(key: V -> K): State<K, V>
      requires Accepted(key)
    {
      Execute(SetAfter(First(key), key), later, key).value
    }

    /**
      The later run removes no value that the earlier one inserted under a new key and left live,
      and ends with no live value under a key that the earlier one found set and left unset.
     */
    ghost predicate Uninterfering(key: V -> K)
      requires Accepted(key)
    {
      && (forall v :: v in First(key).live && key(v) !in before ==> Remove(key(v)) !in later)
      && (forall v :: v in Second(key).live && key(v) in before ==> key(v) in SetAfter(First(key), key))
    }
  }

  /** The removed keys are the arguments of the removals. */
  lemma {:induction false} RemovedByEvents<K, V>(before: set<K>, events: seq<Event<K, V>>, key: V -> K, k: K)
    requires Execute(before, events, key).Some?
    ensures k in Execute(before, events, key).value.removed <==> Remove(k) in events
  {
    if events != [] {
      var n := |events| - 1;
      RemovedByEvents(before, events[..n], key, k);
      assert events == events[..n] + [events[n]];
    }
  }

  lemma KeyListed<K, V>(values: seq<V>, key: V -> K, k: K)
    ensures k in KeyBag(values, key) <==> exists v :: v in values && key(v) == k
  {
    if k in Keys(values, key) {
      var i :| 0 <= i < |values| && Keys(values, key)[i] == k;
      assert values[i] in values && key(values[i]) == k;
    }
    if v :| v in values && key(v) == k {
      var i :| 0 <= i < |values| && values[i] == v;
      assert Keys(values, key)[i] == k;
    }
  }

  /** A removal was used on nothing of the range exactly when its key was set before and is unset after. */
  lemma UnusedRemoval<K, V>(before: set<K>, s: State<K, V>, key: V -> K, k: K)
    requires Invariant(before, s, key)
    ensures k in multiset(s.removed) - KeyBag(s.inserted, key) <==> k in before && k !in SetAfter(s, key)
  {
    KeyListed(s.live, key, k);
    var balance := KeyBag(s.inserted, key) + multiset(before - s.prior);
    assert balance[k] == (multiset(s.removed) + KeyBag(s.live, key))[k];
    assert k in KeyBag(s.live, key) ==> KeyBag(s.live, key)[k] == 1;
  }

  /** The survivors of a run, by key: live under a key that was not set before. */
  lemma SurvivingKey<K, V>(before: set<K>, s: State<K, V>, key: V -> K, k: K)
    requires Invariant(before, s, key)
    ensures k in KeyBag(Survivors(multiset(s.removed), s.inserted, key), key)
       <==> k !in before && exists v :: v in s.live && key(v) == k
  {
    OutsideBag(s.live, key, before, k);
    KeyListed(s.live, key, k);
  }

  /** What could keep the lists of two runs from separating, key by key and read from the calls. */
  lemma MeetingKey<K, V>(runs: TwoRuns<K, V>, key: V -> K, k: K)
    requires runs.Accepted(key)
    ensures var s, t := runs.First(key), runs.Second(key);
            && (k in multiset(t.removed) && k in KeyBag(Survivors(multiset(s.removed), s.inserted, key), key)
                <==> k !in runs.before && Remove(k) in runs.later && exists v :: v in s.live && key(v) == k)
            && (k in multiset(s.removed) - KeyBag(s.inserted, key)
                && k in KeyBag(Survivors(multiset(t.removed), t.inserted, key), key)
                <==> k in runs.before && k !in SetAfter(s, key) && exists v :: v in t.live && key(v) == k)
  {
    var s, t := runs.First(key), runs.Second(key);
    var middle := SetAfter(s, key);
    RunKeeps(runs.before, runs.earlier, key);
    RunKeeps(middle, runs.later, key);
    SurvivingKey(runs.before, s, key, k);
    SurvivingKey(middle, t, key, k);
    UnusedRemoval(runs.before, s, key, k);
    RemovedByEvents(middle, runs.later, key, k);
  }

  lemma UninterferingRunsSeparate<K, V>(runs: TwoRuns<K, V>, key: V -> K, s: State<K, V>, t: State<K, V>)
    requires runs.Accepted(key) && s == runs.First(key) && t == runs.Second(key) && runs.Uninterfering(key)
    ensures Separate(s.removed, s.inserted, t.removed, t.inserted, key)
  {
    forall k
      ensures !(k in multiset(t.removed) && k in KeyBag(Survivors(multiset(s.removed), s.inserted, key), key))
      ensures !(k in multiset(s.removed) - KeyBag(s.inserted, key)
                && k in KeyBag(Survivors(multiset(t.removed), t.inserted, key), key))
    {
      MeetingKey(runs, key, k);
    }
  }

  lemma SeparateRunsAreUninterfering<K, V>(runs: TwoRuns<K, V>, key: V -> K, s: State<K, V>, t: State<K, V>)
    requires runs.Accepted(key) && s == runs.First(key) && t == runs.Second(key)
    requires Separate(s.removed, s.inserted, t.removed, t.inserted, key)
    ensures runs.Uninterfering(key)
  {
    forall v | v in s.live && key(v) !in runs.before
      ensures Remove(key(v)) !in runs.later
    {
      MeetingKey(runs, key, key(v));
    }
    forall v | v in t.live && key(v) in runs.before
      ensures key(v) in SetAfter(s, key)
    {
      MeetingKey(runs, key, key(v));
    }
  }

  /** The lists of two consecutive runs filter apart as they filter together exactly when the runs do not interfere. */
  lemma RunsSeparate<K, V>(runs: TwoRuns<K, V>, key: V -> K)
    requires runs.Accepted(key)
    ensures var s, t := runs.First(key), runs.Second(key);
            Separate(s.removed, s.inserted, t.removed, t.inserted, key) <==> runs.Uninterfering(key)
  {
    var s, t := runs.First(key), runs.Second(key);
    if runs.Uninterfering(key) {
      UninterferingRunsSeparate(runs, key, s, t);
    } else if Separate(s.removed, s.inserted, t.removed, t.inserted, key) {
      SeparateRunsAreUninterfering(runs, key, s, t);
    }
  }

  /**
    The side condition cannot be dropped: a root set before the range, removed and
    inserted again is live, yet the filter drops it.
   */
  lemma ReinsertedOldKeyIsDropped()
    ensures var key := (v: int) => v;
            var end := Execute({7}, [Remove(7), Insert(7)], key);
            && end.Some? && end.value.live == [7]
            && Survivors(multiset(end.value.removed), end.value.inserted, key) == []
  {
    var key := (v: int) => v;
    var events: seq<Event<int, int>> := [Remove(7), Insert(7)];
    var empty: seq<int> := [];
    assert events[..1] == [Remove(7)] && events[..1][..0] == [];
    assert Keys(empty, key) == [];
    assert Execute({7}, events[..0], key) == Some(Start({7}));
    var first: Event<int, int> := Remove(7);
    var next := Step(Start({7}), first, key);
    assert next.value.prior == {} && next.value.removed == [7];
    assert Step(Start({7}), first, key) == Some(State({}, [], [], [7]));
    assert Execute({7}, events[..1], key) == Some(State({}, [], [], [7]));
    assert Execute({7}, events, key) == Some(State({}, [7], [7], [7]));
    FilterRefinesRun({7}, events, key);
  }
}
