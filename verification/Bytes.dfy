/** Bytes, machine integers and their fixed-width big-endian form. */
module Bytes {

  type byte = b: nat | b < 0x100
  type U16 = n: nat | n < 0x1_0000
  type U32 = n: nat | n < 0x1_0000_0000
  type U64 = n: nat | n < 0x1_0000_0000_0000_0000
  type U256 = n: nat | n < 0x1_0000_0000_0000_0000_0000_0000_0000_0000_0000_0000_0000_0000_0000_0000_0000_0000

  type Digest = d: seq<byte> | |d| == 32 witness seq(32, _ => 0)
  type Address = a: seq<byte> | |a| == 20 witness seq(20, _ => 0)

  const TWO32: nat := 0x1_0000_0000
  const TWO63: nat := 0x8000_0000_0000_0000
  const TWO64: nat := 0x1_0000_0000_0000_0000
  const TWO256: nat := 0x1_0000_0000_0000_0000_0000_0000_0000_0000_0000_0000_0000_0000_0000_0000_0000_0000

  /** 256 to the power n. */
  function Pow256(n: nat): (r: nat)
    ensures r > 0
  {
    if n == 0 then 1 else 256 * Pow256(n - 1)
  }

  lemma PowerWidths()
    ensures Pow256(2) == 0x1_0000 && Pow256(4) == TWO32 && Pow256(8) == TWO64 && Pow256(32) == TWO256
  {
    assert Pow256(8) == TWO64;
    assert Pow256(16) == TWO64 * TWO64;
    assert Pow256(24) == TWO64 * TWO64 * TWO64;
  }

  /** `to_be_bytes` of an n-byte integer. */
  function ToBE(v: nat, n: nat): (r: seq<byte>)
    ensures |r| == n
  {
    if n == 0 then [] else ToBE(v / 256, n - 1) + [v % 256]
  }

  /** `from_be_bytes`. */
  function FromBE(b: seq<byte>): nat {
    if b == [] then 0 else FromBE(b[..|b| - 1]) * 256 + b[|b| - 1]
  }

  function Zeros(n: nat): (r: seq<byte>)
    ensures |r| == n
  {
    seq(n, _ => 0)
  }

  lemma {:induction false} FromBEBound(b: seq<byte>)
    ensures FromBE(b) < Pow256(|b|)
  {
    if b != [] {
      FromBEBound(b[..|b| - 1]);
    }
  }

  /** Writing then reading a value that fits its width is the identity. */
  lemma {:induction false} ReadWritten(v: nat, n: nat)
    requires v < Pow256(n)
    ensures FromBE(ToBE(v, n)) == v
  {
    if n > 0 {
      ReadWritten(v / 256, n - 1);
      assert ToBE(v, n)[..n - 1] == ToBE(v / 256, n - 1);
    }
  }

  /** Reading then writing bytes is the identity, whatever the bytes. */
  lemma {:induction false} WriteRead(b: seq<byte>)
    ensures ToBE(FromBE(b), |b|) == b
  {
    if b != [] {
      var n := |b| - 1;
      var front := FromBE(b[..n]);
      WriteRead(b[..n]);
      assert FromBE(b) == front * 256 + b[n];
      assert FromBE(b) / 256 == front && FromBE(b) % 256 == b[n];
      assert ToBE(FromBE(b), n + 1) == ToBE(front, n) + [b[n]];
      assert b == b[..n] + [b[n]];
    }
  }

  /** The big-endian form of a given width is injective on the values that fit. */
  lemma WrittenInjective(v: nat, w: nat, n: nat)
    requires v < Pow256(n) && w < Pow256(n) && ToBE(v, n) == ToBE(w, n)
    ensures v == w
  {
    ReadWritten(v, n);
    ReadWritten(w, n);
  }

  /** A prefix weighs 256 to the power of what follows it. */
  lemma {:induction false} FromBEAppend(a: seq<byte>, b: seq<byte>)
    ensures FromBE(a + b) == FromBE(a) * Pow256(|b|) + FromBE(b)
  {
    if b == [] {
      assert a + b == a;
    } else {
      var b' := b[..|b| - 1];
      FromBEAppend(a, b');
      assert (a + b)[..|a + b| - 1] == a + b';
      assert FromBE(a) * Pow256(|b'|) * 256 == FromBE(a) * Pow256(|b|);
    }
  }

  lemma {:induction false} ZerosRead(n: nat)
    ensures FromBE(Zeros(n)) == 0
  {
    if n > 0 {
      ZerosRead(n - 1);
      assert Zeros(n)[..n - 1] == Zeros(n - 1);
    }
  }

  /** A value that fits the narrower width is zero-extended by the wider one. */
  lemma ZeroExtended(v: nat, n: nat, pad: nat)
    requires v < Pow256(n)
    ensures ToBE(v, pad + n) == Zeros(pad) + ToBE(v, n)
  {
    var b := Zeros(pad) + ToBE(v, n);
    FromBEAppend(Zeros(pad), ToBE(v, n));
    ZerosRead(pad);
    ReadWritten(v, n);
    assert FromBE(b) == v;
    WriteRead(b);
  }

  /** A number is written as the bytes it is read from. */
  lemma WrittenAs(v: nat, b: seq<byte>)
    requires v == FromBE(b)
    ensures ToBE(v, |b|) == b
  {
    WriteRead(b);
  }

  /** Two numbers of n bytes side by side are read back from the two halves, and as one number from both. */
  lemma SideBySide(high: nat, low: nat, n: nat, b: seq<byte>)
    requires high < Pow256(n) && low < Pow256(n) && b == ToBE(high, n) + ToBE(low, n)
    ensures FromBE(b) == high * Pow256(n) + low && FromBE(b[..n]) == high && FromBE(b[n..]) == low
  {
    FromBEAppend(ToBE(high, n), ToBE(low, n));
    ReadWritten(high, n);
    ReadWritten(low, n);
    assert b[..n] == ToBE(high, n) && b[n..] == ToBE(low, n);
  }
}
