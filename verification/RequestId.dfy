/** The 32-byte request id of the proposer: its text form, and the mock proof id inside it. */
module RequestId {
  import opened Results
  import opened Bytes
  import opened Text

  datatype ParseError = InvalidRequestId(value: string)

  /** `Display for RequestId`. */
  function Print(id: Digest): string {
    HexEncode(id)
  }

  /** `B256::from_str`: exactly 64 hexadecimal digits, after an optional 0x. */
  function ParseB256(s: string): (r: Option<Digest>) {
    var digits := if |s| >= 2 && s[..2] == "0x" then s[2..] else s;
    if |digits| != 64 then None
    else
      match HexDecode(digits)
      case None => None
      case Some(b) => Some(b)
  }

  /** The id of a number: its eight bytes, after zeros. */
  function NumberId(n: U64): Digest {
    Zeros(24) + ToBE(n, 8)
  }

  function Parse(s: string): Result<Digest, ParseError> {
    match ParseB256(s)
    case Some(id) => Ok(id)
    case None =>
      match ParseU64(s)
      case Some(n) => Ok(NumberId(n))
      case None => Err(InvalidRequestId(s))
  }

  /** `Deserialize for RequestId`: bytes first, then a number copied into the tail of a zeroed buffer. */
  method Deserialize(value: string) returns (r: Result<Digest, ParseError>)
    ensures r == Parse(value)
  {
    var asBytes := ParseB256(value);
    if asBytes.Some? {
      return Ok(asBytes.value);
    }
    var asNumber := ParseU64(value);
    if asNumber.None? {
      return Err(InvalidRequestId(value));
    }
    var bytes := ToBE(asNumber.value, 8);
    var encoding := new byte[32](_ => 0);
    for i := 0 to 8
      invariant encoding[..] == Zeros(24) + bytes[..i] + Zeros(8 - i)
    {
      encoding[24 + i] := bytes[i];
      assert encoding[..] == Zeros(24) + bytes[..i + 1] + Zeros(8 - (i + 1));
    }
    assert encoding[..] == NumberId(asNumber.value);
    return Ok(encoding[..]);
  }

  /** `i64::from_be_bytes` of the last eight bytes, as the mock prover asks the proposer for. */
  function MockProofId(id: Digest): int {
    var n := FromBE(id[24..32]);
    if n < TWO63 then n else n - TWO64
  }

  /** Parsing the printed form of any id gives the id back. */
  lemma ParsePrinted(id: Digest)
    ensures Parse(Print(id)) == Ok(id)
  {
    HexDecodeEncoded(id);
    var s := Print(id);
    if s[..2] == "0x" {
      assert s[1] == 'x';
      NoXInHex(id, 1);
    }
  }

  /** The texts read as bytes: 64 hexadecimal digits of either case, after 0x or not. */
  lemma ReadAsBytesExactly(s: string)
    ensures ParseB256(s).Some?
       <==> || (|s| == 64 && forall i :: 0 <= i < 64 ==> IsHexDigit(s[i]))
            || (|s| == 66 && s[0] == '0' && s[1] == 'x' && forall i :: 2 <= i < 66 ==> IsHexDigit(s[i]))
  {
    if |s| >= 2 && s[..2] == "0x" {
      assert s[0] == s[..2][0] && s[1] == s[..2][1];
      assert !IsHexDigit(s[1]);
      if |s| == 66 {
        DecodesExactly(s[2..]);
        assert forall i :: 0 <= i < 64 ==> s[2..][i] == s[i + 2];
        assert forall i :: 2 <= i < 66 ==> s[i] == s[2..][i - 2];
      }
    } else {
      assert |s| >= 2 ==> s[..2] == [s[0], s[1]];
      if |s| == 64 {
        DecodesExactly(s);
      }
    }
  }

  /** The printed form is 64 lower-case hexadecimal digits. */
  lemma PrintsLowerCase(id: Digest)
    ensures |Print(id)| == 64
    ensures forall i :: 0 <= i < 64 ==> '0' <= Print(id)[i] <= '9' || 'a' <= Print(id)[i] <= 'f'
  {
    EncodesLowerCase(id);
  }

  /** With a 0x in front, the printed form parses to the same id. */
  lemma ParsePrefixed(id: Digest)
    ensures Parse("0x" + Print(id)) == Ok(id)
  {
    var s := "0x" + Print(id);
    assert s[..2] == "0x" && s[2..] == Print(id);
    HexDecodeEncoded(id);
  }

  /** A text is rejected exactly when it is neither bytes nor a number, and the error names it. */
  lemma RejectedExactly(s: string)
    ensures Parse(s).Err? <==> ParseB256(s).None? && ParseU64(s).None?
    ensures Parse(s).Err? ==> Parse(s).error == InvalidRequestId(s)
    ensures ParseB256(s).None? && ParseU64(s).Some?
        ==> && Parse(s).Ok? && Parse(s).value[..24] == Zeros(24)
            && FromBE(Parse(s).value[24..]) == ParseU64(s).value
  {
    if ParseU64(s).Some? {
      var n := ParseU64(s).value;
      PowerWidths();
      ReadWritten(n, 8);
      assert NumberId(n)[..24] == Zeros(24) && NumberId(n)[24..] == ToBE(n, 8);
    }
  }

  /** An encoded id has no x in it, so it is never taken to start with 0x. */
  lemma {:induction false} NoXInHex(b: seq<byte>, i: nat)
    requires i < |HexEncode(b)|
    ensures HexValue(HexEncode(b)[i]).Some?
  {
    if i < |HexEncode(b[..|b| - 1])| {
      NoXInHex(b[..|b| - 1], i);
    }
  }

  /**
    A text that reads as a 64-bit number is given that number's id, except that 64 digits are
    read as bytes: the two readings of those agree exactly on numbers below ten.
   */
  lemma NumbersParse(s: string)
    requires ParseU64(s).Some?
    ensures Parse(s) == Ok(NumberId(ParseU64(s).value))
       <==> |s| != 64 || s[0] == '+' || ParseU64(s).value < 10
  {
    NotPrefixed(s);
    if |s| == 64 && s[0] != '+' {
      ReadAsBytes(s);
    } else if |s| == 64 {
      SignIsNotHex(s);
    }
  }

  /** Without the condition: ten, written with 64 digits, is read as the id of sixteen. */
  lemma PaddedTenIsSixteen()
    ensures var ten := ZeroDigits(62) + "10";
            |ten| == 64 && ParseU64(ten) == Some(10) && Parse(ten) == Ok(NumberId(16)) && NumberId(16) != NumberId(10)
  {
    var ten := ZeroDigits(62) + "10";
    PaddedBase(62, 10, ten);
    PaddedBase(62, 16, ten);
    NotPrefixed(ten);
    ReadAsIdOf(ten, 16);
    NumberIdReads(10);
    NumberIdReads(16);
  }

  /** In any base, 10 is the base. */
  lemma PaddedBase(zeros: nat, base: nat, s: string)
    requires zeros > 0 && s == ZeroDigits(zeros) + "10"
    ensures AllDigits(s) && Positional(s, base) == base
  {
    ZeroDigitsRead(zeros, base);
    var front := s[..|s| - 1];
    assert front == ZeroDigits(zeros) + "1";
    assert front[..|front| - 1] == ZeroDigits(zeros);
    assert Positional(front, base) == 1;
  }

  /** 64 digits are read as bytes, so they name the number that they stand for in base 16. */
  lemma ReadAsIdOf(s: string, n: U64)
    requires |s| == 64 && AllDigits(s) && Positional(s, 16) == n
    ensures HexDecode(s) == Some(NumberId(n))
  {
    DigitsReadAsHex(s);
    NumberIdReads(n);
    WriteRead(HexDecode(s).value);
    WriteRead(NumberId(n));
  }

  function ZeroDigits(n: nat): (s: string)
    ensures |s| == n && AllDigits(s)
  {
    seq(n, _ => '0')
  }

  lemma {:induction false} ZeroDigitsRead(n: nat, base: nat)
    ensures Positional(ZeroDigits(n), base) == 0
  {
    if n > 0 {
      assert ZeroDigits(n)[..n - 1] == ZeroDigits(n - 1);
      ZeroDigitsRead(n - 1, base);
    }
  }

  /** No number starts with 0x. */
  lemma NotPrefixed(s: string)
    requires ParseU64(s).Some?
    ensures |s| >= 2 ==> s[..2] != "0x"
  {
    var digits := if |s| > 1 && s[0] == '+' then s[1..] else s;
    assert AllDigits(digits);
    if |s| >= 2 {
      assert s[1] == if s[0] == '+' then digits[0] else digits[1];
      assert IsDigit(s[1]) && !IsDigit("0x"[1]);
      assert s[..2][1] == s[1];
    }
  }

  lemma ReadAsBytes(s: string)
    requires |s| == 64 && AllDigits(s) && Positional(s, 10) < TWO64
    ensures HexDecode(s).Some?
    ensures HexDecode(s).value == NumberId(Positional(s, 10)) <==> Positional(s, 10) < 10
  {
    DigitsReadAsHex(s);
    BasesAgree(s);
    NumberIdReads(Positional(s, 10));
    WriteRead(HexDecode(s).value);
    WriteRead(NumberId(Positional(s, 10)));
  }

  lemma NumberIdReads(n: U64)
    ensures FromBE(NumberId(n)) == n
  {
    PowerWidths();
    ZeroExtended(n, 8, 24);
    ReadWritten(n, 32);
  }

  lemma {:induction false} SignIsNotHex(s: string)
    requires |s| % 2 == 0 && |s| > 0 && s[0] == '+'
    ensures HexDecode(s).None?
  {
    if |s| > 2 {
      SignIsNotHex(s[..|s| - 2]);
    }
  }

  /**
    The decimal form of any 64-bit number parses to its id, from which the mock prover
    recovers the number, or its two's-complement value when it is 2^63 or more.
   */
  lemma DecimalNumberRoundTrip(n: U64)
    ensures Parse(Decimal(n)) == Ok(NumberId(n))
    ensures MockProofId(NumberId(n)) == if n < TWO63 then n else n - TWO64
  {
    DecimalReads(n);
    assert PowTen(10) == 100_0000_0000;
    assert PowTen(20) == 1_0000_0000_0000_0000_0000;
    DecimalLength(n, 20);
    assert IsDigit(Decimal(n)[0]);
    NumbersParse(Decimal(n));
    PowerWidths();
    ReadWritten(n, 8);
    assert NumberId(n)[24..32] == ToBE(n, 8);
  }
}
