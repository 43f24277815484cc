/** Decimal and hexadecimal text. */
module Text {
  import opened Results
  import opened Bytes

  predicate IsDigit(c: char) {
    '0' <= c <= '9'
  }

  function DigitValue(c: char): (v: nat)
    requires IsDigit(c)
    ensures v < 10
  {
    c as int - '0' as int
  }

  function DigitChar(d: nat): (c: char)
    requires d < 10
    ensures IsDigit(c) && DigitValue(c) == d
  {
    ('0' as int + d) as char
  }

  predicate AllDigits(s: string) {
    forall i :: 0 <= i < |s| ==> IsDigit(s[i])
  }

  /** The number that digits stand for in a base. */
  function Positional(s: string, base: nat): nat
    requires AllDigits(s)
  {
    if s == [] then 0 else Positional(s[..|s| - 1], base) * base + DigitValue(s[|s| - 1])
  }

  /** Decimal form of a number, as `Display` prints it. */
  function Decimal(n: nat): (s: string)
    ensures AllDigits(s) && s != []
  {
    if n < 10 then [DigitChar(n)] else Decimal(n / 10) + [DigitChar(n % 10)]
  }

  lemma {:induction false} DecimalReads(n: nat)
    ensures Positional(Decimal(n), 10) == n
  {
    if n >= 10 {
      DecimalReads(n / 10);
      assert Decimal(n)[..|Decimal(n)| - 1] == Decimal(n / 10);
    } else {
      assert Positional([], 10) == 0;
    }
  }

  lemma DecimalInjective(m: nat, n: nat)
    requires Decimal(m) == Decimal(n)
    ensures m == n
  {
    DecimalReads(m);
    DecimalReads(n);
  }

  function PowTen(n: nat): (r: nat)
    ensures r > 0
  {
    if n == 0 then 1 else 10 * PowTen(n - 1)
  }

  lemma {:induction false} DecimalLength(n: nat, k: nat)
    requires n < PowTen(k) && k > 0
    ensures |Decimal(n)| <= k
  {
    if n >= 10 {
      assert k > 1;
      DecimalLength(n / 10, k - 1);
    }
  }

  /** `u64::from_str`: an optional plus sign, then digits whose value fits. */
  function ParseU64(s: string): Option<U64> {
    var digits := if |s| > 1 && s[0] == '+' then s[1..] else s;
    if digits == [] || !AllDigits(digits) then None
    else
      var v := Positional(digits, 10);
      if v < TWO64 then Some(v) else None
  }

  /** Value of a hexadecimal digit of either case. */
  function HexValue(c: char): (v: Option<nat>)
    ensures v.Some? ==> v.value < 16
    ensures IsDigit(c) ==> v == Some(DigitValue(c))
  {
    if '0' <= c <= '9' then Some(c as int - '0' as int)
    else if 'a' <= c <= 'f' then Some(c as int - 'a' as int + 10)
    else if 'A' <= c <= 'F' then Some(c as int - 'A' as int + 10)
    else None
  }

  function HexChar(d: nat): (c: char)
    requires d < 16
    ensures HexValue(c) == Some(d)
  {
    if d < 10 then ('0' as int + d) as char else ('a' as int + (d - 10)) as char
  }

  /** `hex::encode`: two lower-case digits a byte. */
  function HexEncode(b: seq<byte>): (s: string)
    ensures |s| == 2 * |b|
  {
    if b == [] then []
    else
      var last := b[|b| - 1];
      HexEncode(b[..|b| - 1]) + [HexChar(last / 16), HexChar(last % 16)]
  }

  function HexDecode(s: string): (b: Option<seq<byte>>)
    requires |s| % 2 == 0
    ensures b.Some? ==> |b.value| * 2 == |s|
  {
    if s == [] then Some([])
    else
      var n := |s| - 2;
      match (HexDecode(s[..n]), HexValue(s[n]), HexValue(s[n + 1]))
      case (Some(front), Some(high), Some(low)) => Some(front + [16 * high + low])
      case _ => None
  }

  predicate IsLowerHex(c: char) {
    '0' <= c <= '9' || 'a' <= c <= 'f'
  }

  lemma {:induction false} EncodesLowerCase(b: seq<byte>)
    ensures forall i :: 0 <= i < |HexEncode(b)| ==> IsLowerHex(HexEncode(b)[i])
  {
    if b != [] {
      EncodesLowerCase(b[..|b| - 1]);
    }
  }

  lemma {:induction false} HexDecodeEncoded(b: seq<byte>)
    ensures HexDecode(HexEncode(b)) == Some(b)
  {
    if b != [] {
      var n := |b| - 1;
      HexDecodeEncoded(b[..n]);
      EncodedPair(b, n, b[n] / 16, b[n] % 16);
      DecodeOneMore(b, b[..n], HexEncode(b), HexEncode(b[..n]), b[n] / 16, b[n] % 16);
    }
  }

  /** The last byte is encoded by its two nibbles. */
  lemma EncodedPair(b: seq<byte>, n: nat, high: nat, low: nat)
    requires n + 1 == |b| && high == b[n] / 16 && low == b[n] % 16
    ensures high < 16 && low < 16 && 16 * high + low == b[n]
    ensures HexEncode(b) == HexEncode(b[..n]) + [HexChar(high), HexChar(low)]
  {
  }

  lemma DecodeOneMore(b: seq<byte>, b': seq<byte>, s: string, s': string, high: nat, low: nat)
    requires high < 16 && low < 16 && s == s' + [HexChar(high), HexChar(low)] && |s'| % 2 == 0
    requires HexDecode(s') == Some(b') && b != [] && b' == b[..|b| - 1] && b[|b| - 1] == 16 * high + low
    ensures HexDecode(s) == Some(b)
  {
    DecodePair(s, s', b', high, low);
    assert b == b' + [b[|b| - 1]];
  }

  /** Two more digits decode to one more byte. */
  lemma DecodePair(s: string, front: string, b: seq<byte>, high: nat, low: nat)
    requires high < 16 && low < 16 && s == front + [HexChar(high), HexChar(low)]
    requires |front| % 2 == 0 && HexDecode(front) == Some(b)
    ensures HexDecode(s) == Some(b + [16 * high + low])
  {
    assert s[..|s| - 2] == front;
  }

  /** Decimal digits are hexadecimal digits, and read in base 16. */
  lemma {:induction false} DigitsReadAsHex(s: string)
    requires AllDigits(s) && |s| % 2 == 0
    ensures HexDecode(s).Some? && FromBE(HexDecode(s).value) == Positional(s, 16)
  {
    if s != [] {
      var n := |s| - 2;
      DigitsReadAsHex(s[..n]);
      var b := HexDecode(s).value;
      assert b[..|b| - 1] == HexDecode(s[..n]).value;
      assert s[..n + 1][..n] == s[..n];
      assert Positional(s, 16) == Positional(s[..n + 1], 16) * 16 + DigitValue(s[n + 1]);
    }
  }

  /** Bases 10 and 16 read the same number only when it is a single digit. */
  lemma {:induction false} BasesAgree(s: string)
    requires AllDigits(s)
    ensures Positional(s, 10) <= Positional(s, 16)
    ensures Positional(s, 10) == Positional(s, 16) <==> Positional(s, 10) < 10
  {
    if s != [] {
      BasesAgree(s[..|s| - 1]);
    }
  }

  predicate IsHexDigit(c: char) {
    '0' <= c <= '9' || 'a' <= c <= 'f' || 'A' <= c <= 'F'
  }

  /** Digits of both cases have their values: 10 to 15 from a to f, and from A to F. */
  lemma HexValues(c: char)
    ensures HexValue(c).Some? <==> IsHexDigit(c)
    ensures 'a' <= c <= 'f' ==> HexValue(c) == Some(10 + (c as int - 'a' as int))
    ensures 'A' <= c <= 'F' ==> HexValue(c) == Some(10 + (c as int - 'A' as int))
  {
  }

  /** A text of even length decodes exactly when it has hexadecimal digits only. */
  lemma {:induction false} DecodesExactly(s: string)
    requires |s| % 2 == 0
    ensures HexDecode(s).Some? <==> forall i :: 0 <= i < |s| ==> IsHexDigit(s[i])
  {
    if s != [] {
      var n := |s| - 2;
      DecodesExactly(s[..n]);
      assert s == s[..n] + [s[n], s[n + 1]];
      if HexDecode(s[..n]).Some? {
        forall i | 0 <= i < n
          ensures IsHexDigit(s[i])
        {
          assert s[..n][i] == s[i];
        }
      } else {
        var i :| 0 <= i < n && !IsHexDigit(s[..n][i]);
        assert !IsHexDigit(s[i]);
      }
    }
  }

  /** Two digits make a byte, the first one the high nibble. */
  lemma {:induction false} DecodedByte(s: string, i: nat)
    requires |s| % 2 == 0 && 2 * i < |s| && HexDecode(s).Some?
    ensures HexValue(s[2 * i]).Some? && HexValue(s[2 * i + 1]).Some?
    ensures HexDecode(s).value[i] == 16 * HexValue(s[2 * i]).value + HexValue(s[2 * i + 1]).value
  {
    if i < (|s| - 2) / 2 {
      DecodedByte(s[..|s| - 2], i);
    }
  }

  /** The texts that read as a 64-bit number: digits of a value that fits, plus sign or not. */
  lemma ParsesExactly(digits: string)
    requires AllDigits(digits)
    ensures ParseU64(digits) == ParseU64("+" + digits)
         == if digits != [] && Positional(digits, 10) < TWO64 then Some(Positional(digits, 10)) else None
  {
    var signed := "+" + digits;
    if digits == [] {
      assert signed[0] == '+' && !IsDigit(signed[0]);
    } else {
      assert signed[1..] == digits;
      assert IsDigit(digits[0]);
    }
  }

  lemma OnlyDigitsParse(s: string)
    requires ParseU64(s).Some?
    ensures AllDigits(s) || (s != [] && s[0] == '+' && AllDigits(s[1..]))
  {
  }
}
