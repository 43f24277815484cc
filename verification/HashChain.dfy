/**
  Replay of an on-chain hash chain, and what equality of two replays binds.
  The hash is a parameter: nothing is assumed about it.
 */
module HashChain {
  import opened Bytes

  type Combine = (Digest, Digest) -> Digest

  /** The fold of `validate_hash_chain`: absorb the hashes from left to right. */
  function Replay(combine: Combine, start: Digest, hashes: seq<Digest>): Digest
    decreases |hashes|
  {
    if hashes == [] then start else Replay(combine, combine(start, hashes[0]), hashes[1..])
  }

  /** Replaying two lists in turn is replaying their concatenation. */
  lemma {:induction false} ReplayAppend(combine: Combine, start: Digest, a: seq<Digest>, b: seq<Digest>)
    ensures Replay(combine, start, a + b) == Replay(combine, Replay(combine, start, a), b)
    decreases |a|
  {
    if a == [] {
      assert a + b == b;
    } else {
      assert (a + b)[1..] == a[1..] + b;
      ReplayAppend(combine, combine(start, a[0]), a[1..], b);
    }
  }

  /** The last hash is absorbed last. */
  lemma ReplayLast(combine: Combine, start: Digest, a: seq<Digest>)
    requires a != []
    ensures Replay(combine, start, a) == combine(Replay(combine, start, a[..|a| - 1]), a[|a| - 1])
  {
    assert a == a[..|a| - 1] + [a[|a| - 1]];
    ReplayAppend(combine, start, a[..|a| - 1], [a[|a| - 1]]);
  }

  /** The pair of digests hashed when position i of the list is absorbed. */
  function Absorbed(combine: Combine, start: Digest, hashes: seq<Digest>, i: nat): (Digest, Digest)
    requires i < |hashes|
  {
    (Replay(combine, start, hashes[..i]), hashes[i])
  }

  /** What two lists that replay to the same value have in common. */
  datatype Evidence =
    | Same
    | CycleThenSecond(n: nat)          // the first list is n hashes that lead back to the start, then the second list
    | CycleThenFirst(n: nat)           // the same with the lists exchanged
    | Collision(i: nat, j: nat)        // absorbing a[i] and absorbing b[j] hash distinct pairs to one digest

  ghost predicate Explains(combine: Combine, start: Digest, a: seq<Digest>, b: seq<Digest>, v: Evidence) {
    match v
    case Same => a == b
    case CycleThenSecond(n) => 0 < n <= |a| && a[n..] == b && Replay(combine, start, a[..n]) == start
    case CycleThenFirst(n) => 0 < n <= |b| && b[n..] == a && Replay(combine, start, b[..n]) == start
    case Collision(i, j) =>
      && i < |a| && j < |b|
      && Absorbed(combine, start, a, i) != Absorbed(combine, start, b, j)
      && combine(Absorbed(combine, start, a, i).0, a[i]) == combine(Absorbed(combine, start, b, j).0, b[j])
  }

  /**
    Walks two lists backwards from their common replay value to the evidence that
    relates them. The evidence is computed, so it is not the trivial existence of a
    collision in a function from 64 bytes to 32.
   */
  function Bind(combine: Combine, start: Digest, a: seq<Digest>, b: seq<Digest>): (v: Evidence)
    requires Replay(combine, start, a) == Replay(combine, start, b)
    ensures Explains(combine, start, a, b, v)
    decreases |a|
  {
    if a == [] && b == [] then Same
    else if a == [] then assert b[..|b|] == b; CycleThenFirst(|b|)
    else if b == [] then assert a[..|a|] == a; CycleThenSecond(|a|)
    else
      var m, n := |a| - 1, |b| - 1;
      ReplayLast(combine, start, a);
      ReplayLast(combine, start, b);
      if Absorbed(combine, start, a, m) != Absorbed(combine, start, b, n) then Collision(m, n)
      else
        var v := Bind(combine, start, a[..m], b[..n]);
        Carry(combine, start, a, b, v);
        v
  }

  /** Evidence about two lists without their equal last hashes is evidence about the lists. */
  lemma Carry(combine: Combine, start: Digest, a: seq<Digest>, b: seq<Digest>, v: Evidence)
    requires a != [] && b != [] && a[|a| - 1] == b[|b| - 1]
    requires Explains(combine, start, a[..|a| - 1], b[..|b| - 1], v)
    ensures Explains(combine, start, a, b, v)
  {
    var a', b', last := a[..|a| - 1], b[..|b| - 1], a[|a| - 1];
    assert a == a' + [last] && b == b' + [last];
    match v
    case Same =>
    case CycleThenSecond(n) =>
      assert a[..n] == a'[..n];
      assert a[n..] == a'[n..] + [last];
    case CycleThenFirst(n) =>
      assert b[..n] == b'[..n];
      assert b[n..] == b'[n..] + [last];
    case Collision(i, j) =>
      assert a[..i] == a'[..i] && a[i] == a'[i];
      assert b[..j] == b'[..j] && b[j] == b'[j];
  }
}
