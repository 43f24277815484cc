/** A string-keyed map filled by a list of insertions, each under the text of its key. */
module KeyedMap {

  ghost predicate Injective<K(!new)>(render: K -> string) {
    forall j, k :: render(j) == render(k) ==> j == k
  }

  ghost predicate NoRepeat<K>(keys: seq<K>) {
    forall i, j :: 0 <= i < j < |keys| ==> keys[i] != keys[j]
  }

  /** The map after inserting the keys in order, later insertions overwriting earlier ones. */
  function Fill<K, V>(render: K -> string, value: K -> V, keys: seq<K>): map<string, V> {
    if keys == [] then map[]
    else
      var n := |keys| - 1;
      Fill(render, value, keys[..n])[render(keys[n]) := value(keys[n])]
  }

  /** The map holds exactly these keys, each with its own value, one entry for each insertion. */
  ghost predicate Holds<K, V>(render: K -> string, value: K -> V, keys: seq<K>, m: map<string, V>) {
    && (forall k :: k in keys ==> render(k) in m && m[render(k)] == value(k))
    && (forall s :: s in m ==> exists k :: k in keys && render(k) == s)
    && |m| == |keys|
  }

  /** With an injective scheme and no repeated key, no insertion overwrites another. */
  lemma {:induction false} NothingOverwritten<K(!new), V>(render: K -> string, value: K -> V, keys: seq<K>)
    requires Injective(render) && NoRepeat(keys)
    ensures Holds(render, value, keys, Fill(render, value, keys))
  {
    if keys != [] {
      var n := |keys| - 1;
      var front, k := keys[..n], keys[n];
      NothingOverwritten(render, value, front);
      InsertedFresh(render, value, front, k, Fill(render, value, front));
      assert keys == front + [k];
    }
  }

  lemma InsertedFresh<K(!new), V>(render: K -> string, value: K -> V, front: seq<K>, k: K, m: map<string, V>)
    requires Injective(render) && k !in front && Holds(render, value, front, m)
    ensures render(k) !in m && Holds(render, value, front + [k], m[render(k) := value(k)])
  {
  }

  lemma NoRepeatAppend<K>(a: seq<K>, b: seq<K>)
    requires NoRepeat(a) && NoRepeat(b) && forall k :: k in a ==> k !in b
    ensures NoRepeat(a + b)
  {
    forall i, j | 0 <= i < j < |a + b|
      ensures (a + b)[i] != (a + b)[j]
    {
      if i < |a| <= j {
        assert a[i] in a && b[j - |a|] in b;
      }
    }
  }
}
