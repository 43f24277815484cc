/** Packing of a BabyBear digest into a BN254 scalar and its 32 bytes. */
module Bn254 {
  import opened Results
  import opened Bytes

  const BABY_BEAR_PRIME: nat := 0x7800_0001
  const BN254_PRIME: nat := 0x30644e72e131a029b85045b68181585d2833e84879b9709143e1f593f0000001
  const BASE: nat := 0x8000_0000
  const FIRST_WORD_MIN: nat := 0x80_0000

  type BabyBear = n: nat | n < BABY_BEAR_PRIME
  type BabyBearDigest = d: seq<BabyBear> | |d| == 8 witness seq(8, _ => 0)

  /** The value of a number written in base 2^31, most significant word first. */
  function Horner(words: seq<BabyBear>): nat {
    if words == [] then 0 else Horner(words[..|words| - 1]) * BASE + words[|words| - 1]
  }

  function PowBase(n: nat): (r: nat)
    ensures r > 0
  {
    if n == 0 then 1 else BASE * PowBase(n - 1)
  }

  /** The n lowest words of a value in base 2^31, most significant first. */
  function Words(v: nat, n: nat): (r: seq<nat>)
    ensures |r| == n
  {
    if n == 0 then [] else Words(v / BASE, n - 1) + [v % BASE]
  }

  /** One more word keeps a value between the multiples of the leading word. */
  lemma Shifted(w: nat, p: nat, h: nat, x: nat)
    requires w * p <= h < (w + 1) * p && x < BASE
    ensures w * (BASE * p) <= h * BASE + x < (w + 1) * (BASE * p)
  {
  }

  lemma {:induction false} HornerBounds(words: seq<BabyBear>)
    ensures Horner(words) < PowBase(|words|)
    ensures words != [] ==> words[0] * PowBase(|words| - 1) <= Horner(words) < (words[0] + 1) * PowBase(|words| - 1)
  {
    if words != [] {
      var n := |words| - 1;
      HornerBounds(words[..n]);
      if n > 0 {
        Shifted(words[0], PowBase(n - 1), Horner(words[..n]), words[n]);
      }
    }
  }

  lemma {:induction false} WordsOfHorner(words: seq<BabyBear>)
    ensures Words(Horner(words), |words|) == words
  {
    if words != [] {
      var n := |words| - 1;
      WordsOfHorner(words[..n]);
      assert Horner(words) / BASE == Horner(words[..n]) && Horner(words) % BASE == words[n];
      assert words == words[..n] + [words[n]];
    }
  }

  lemma {:induction false} PowBaseMonotone(m: nat, n: nat)
    requires m <= n
    ensures PowBase(m) <= PowBase(n)
  {
    if m < n {
      PowBaseMonotone(m, n - 1);
    }
  }

  /**
    The powers that decide the layout: n words fill k bytes, 2^248, which is below the scalar field; and the
    leading byte starts at word 2^23. The sizes are parameters to keep the large numbers out of other proofs.
   */
  lemma Powers(n: nat, k: nat)
    requires n == 8 && k == 31
    ensures PowBase(n) == Pow256(k) < BN254_PRIME
    ensures FIRST_WORD_MIN * PowBase(n - 1) == Pow256(k - 1)
  {
    assert PowBase(4) == 0x1000_0000_0000_0000_0000_0000_0000_0000;
    assert Pow256(8) == TWO64;
    assert Pow256(16) == TWO64 * TWO64;
    assert Pow256(24) == TWO64 * TWO64 * TWO64;
    assert Pow256(30) == TWO64 * TWO64 * TWO64 * 0x1_0000_0000_0000;
  }

  /** `to_bytes_be` of a big integer: no leading zero byte, and one byte for zero. */
  function MinimalBE(n: nat): seq<byte> {
    if n < 256 then [n] else MinimalBE(n / 256) + [n % 256]
  }

  lemma {:induction false} MinimalLength(n: nat, k: nat)
    requires k > 0
    ensures |MinimalBE(n)| <= k <==> n < Pow256(k)
  {
    if n < 256 {
      assert Pow256(k) == 256 * Pow256(k - 1);
    } else if k == 1 {
      assert Pow256(1) == 256;
      assert |MinimalBE(n / 256)| >= 1;
    } else {
      MinimalLength(n / 256, k - 1);
      assert n / 256 < Pow256(k - 1) <==> n < 256 * Pow256(k - 1);
    }
  }

  lemma {:induction false} MinimalIsFixed(n: nat)
    ensures MinimalBE(n) == ToBE(n, |MinimalBE(n)|)
  {
    if n >= 256 {
      MinimalIsFixed(n / 256);
    } else {
      assert ToBE(n, 1) == ToBE(n / 256, 0) + [n % 256];
    }
  }

  /** What `to_hash_bn254` returns; None stands for the panic of its exact-length copy. */
  function HashBn254(digest: BabyBearDigest): Option<Digest> {
    if digest[0] >= FIRST_WORD_MIN then Some(ToBE(Horner(digest), 32)) else None
  }

  /** The scalar always fits 31 bytes, and needs the first of them exactly when word 0 is at least 2^23. */
  lemma FirstWordDecides(digest: BabyBearDigest, k: nat)
    requires k == 31
    ensures Horner(digest) < Pow256(k) && (Horner(digest) >= Pow256(k - 1) <==> digest[0] >= FIRST_WORD_MIN)
  {
    Powers(|digest|, k);
    HornerBelow(digest);
    FirstWordAgainst(digest, FIRST_WORD_MIN, PowBase(|digest| - 1), Pow256(k - 1));
  }

  lemma HornerBelow(words: seq<BabyBear>)
    ensures Horner(words) < PowBase(|words|)
  {
    HornerBounds(words);
  }

  lemma FirstWordAgainst(words: seq<BabyBear>, m: nat, p: nat, bound: nat)
    requires words != [] && p == PowBase(|words| - 1) && bound == m * p
    ensures Horner(words) >= bound <==> words[0] >= m
  {
    HornerBounds(words);
    LeadingWord(words[0], m, p, Horner(words));
  }

  /** A value between two multiples is at least another multiple exactly when its leading word is. */
  lemma LeadingWord(w: nat, m: nat, p: nat, v: nat)
    requires w * p <= v < (w + 1) * p
    ensures v >= m * p <==> w >= m
  {
    if w >= m {
      MultiplesGrow(m, w, p);
    } else {
      MultiplesGrow(w + 1, m, p);
    }
  }

  lemma {:induction false} MultiplesGrow(x: nat, y: nat, p: nat)
    requires x <= y
    ensures x * p <= y * p
  {
    if x < y {
      MultiplesGrow(x, y - 1, p);
      assert y * p == (y - 1) * p + p;
    }
  }

  lemma ThirtyOneBytes(digest: BabyBearDigest, k: nat)
    requires k == 31
    ensures |MinimalBE(Horner(digest))| == k <==> digest[0] >= FIRST_WORD_MIN
    ensures |MinimalBE(Horner(digest))| == k ==> [0] + MinimalBE(Horner(digest)) == ToBE(Horner(digest), k + 1)
  {
    var v := Horner(digest);
    FirstWordDecides(digest, k);
    MinimalLength(v, k - 1);
    MinimalLength(v, k);
    if |MinimalBE(v)| == k {
      MinimalIsFixed(v);
      ZeroExtended(v, k, 1);
      assert Zeros(1) == [0];
    }
  }

  /** Neither half of a Horner step reaches the field prime, so the field computes the next base-2^31 number. */
  lemma NoReduction(digest: BabyBearDigest, i: nat)
    requires i < |digest|
    ensures Horner(digest[..i]) * BASE < BN254_PRIME
    ensures Horner(digest[..i + 1]) == Horner(digest[..i]) * BASE + digest[i] < BN254_PRIME
  {
    HornerBelow(digest[..i + 1]);
    PowBaseMonotone(i + 1, |digest|);
    Powers(|digest|, 31);
    assert digest[..i + 1][..i] == digest[..i];
  }

  /** One Horner step of the field. */
  function FieldStep(result: nat, word: nat): nat {
    (result * BASE % BN254_PRIME + word) % BN254_PRIME
  }

  lemma ExactStep(result: nat, word: nat)
    requires result * BASE + word < BN254_PRIME
    ensures FieldStep(result, word) == result * BASE + word
  {
  }

  /** `BabyBearDigest::to_hash_bn254`: Horner steps in the scalar field, then a copy into bytes 1..32. */
  method ToHashBn254(digest: BabyBearDigest) returns (r: Option<Digest>)
    ensures r == HashBn254(digest)
  {
    var result: nat := 0;
    for i := 0 to |digest|
      invariant result == Horner(digest[..i])
    {
      NoReduction(digest, i);
      ExactStep(result, digest[i]);
      result := FieldStep(result, digest[i]);
    }
    assert digest[..|digest|] == digest;
    ThirtyOneBytes(digest, 31);
    var bytes := MinimalBE(result);
    if |bytes| != 31 {
      return None;
    }
    return Some([0] + bytes);
  }

  /**
    The packing is exact. No word is lost to the field, so distinct digests have distinct
    scalars; a hash is returned exactly when the first word is at least 2^23, and its bytes
    give back the eight words.
   */
  lemma PackingIsExact(digest: BabyBearDigest)
    ensures Horner(digest) < Pow256(31) < BN254_PRIME
    ensures Words(Horner(digest), 8) == digest
    ensures HashBn254(digest).Some? <==> digest[0] >= FIRST_WORD_MIN
    ensures HashBn254(digest).Some?
        ==> HashBn254(digest).value[0] == 0 && Words(FromBE(HashBn254(digest).value), 8) == digest
  {
    FirstWordDecides(digest, 31);
    Powers(|digest|, 31);
    WordsOfHorner(digest);
    if digest[0] >= FIRST_WORD_MIN {
      ThirtyOneBytes(digest, 31);
      WideEnough(Horner(digest), 31);
    }
  }

  /** A value that fits k bytes is read back from k + 1. */
  lemma WideEnough(v: nat, k: nat)
    requires v < Pow256(k)
    ensures FromBE(ToBE(v, k + 1)) == v
  {
    assert Pow256(k + 1) == 256 * Pow256(k);
    ReadWritten(v, k + 1);
  }

  /** Without the condition: the digest of eight zero words is not returned. */
  lemma ZeroKeyPanics()
    ensures var zero: BabyBearDigest := [0, 0, 0, 0, 0, 0, 0, 0]; HashBn254(zero).None?
  {
    var zero: BabyBearDigest := [0, 0, 0, 0, 0, 0, 0, 0];
    PackingIsExact(zero);
  }

  /** Distinct digests have distinct scalars, and distinct hashes when both have one. */
  lemma PackingIsInjective(d: BabyBearDigest, e: BabyBearDigest)
    ensures Horner(d) == Horner(e) ==> d == e
    ensures HashBn254(d).Some? && HashBn254(d) == HashBn254(e) ==> d == e
  {
    PackingIsExact(d);
    PackingIsExact(e);
  }
}
