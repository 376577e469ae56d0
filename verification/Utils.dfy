/** The text form of a deposit's transaction index. */
module Utils {
  import opened Words
  import opened Bytes

  /** Hex of the big-endian bytes; the zero test looks at the low 64 bits only. */
  function EncodeBigInt(n: nat): bytes {
    if n % TWO_64 == 0 then ['0' as int, '0' as int] else HexEncode(BigEndian(n))
  }

  function DecodeBigInt(s: bytes): Option<nat> {
    var b := HexDecode(s);
    if b.None? then None else Some(FromBigEndian(b.value))
  }

  lemma ZeroText()
    ensures DecodeBigInt(['0' as int, '0' as int]) == Some(0)
  {
    var zero: bytes := [0];
    HexRoundTrip(zero);
    assert HexEncode(zero) == ['0' as int, '0' as int];
    assert FromBigEndian(zero) == 0;
  }

  lemma NonZeroText(n: nat)
    requires n % TWO_64 != 0
    ensures DecodeBigInt(EncodeBigInt(n)) == Some(n)
    ensures |EncodeBigInt(n)| > 0
  {
    assert n > 0;
    HexRoundTrip(BigEndian(n));
    BigEndianRoundTrip(n);
  }

  /**
   The text always spells a number in whole bytes. It is the number itself exactly when the low
   64 bits are not all zero or the number is zero; every other multiple of 2^64 is written as zero.
   */
  lemma EncodeBigIntRoundTrip(n: nat)
    ensures |EncodeBigInt(n)| % 2 == 0 && |EncodeBigInt(n)| > 0
    ensures DecodeBigInt(EncodeBigInt(n)) == Some(if n % TWO_64 == 0 then 0 else n)
    ensures DecodeBigInt(EncodeBigInt(n)) == Some(n) <==> n % TWO_64 != 0 || n == 0
  {
    if n % TWO_64 == 0 {
      ZeroText();
    } else {
      NonZeroText(n);
    }
  }

  /** Two numbers share a text exactly when they are equal or both collapse to "00". */
  lemma EncodeBigIntCollides(a: nat, b: nat)
    ensures EncodeBigInt(a) == EncodeBigInt(b) <==> a == b || (a % TWO_64 == 0 && b % TWO_64 == 0)
  {
    EncodeBigIntRoundTrip(a);
    EncodeBigIntRoundTrip(b);
  }

  /** The text is lower case and as short as it can be: two zeros for zero, else no leading zero byte. */
  lemma EncodeBigIntSpelling(n: nat)
    ensures Lower(EncodeBigInt(n)) == EncodeBigInt(n)
    ensures DecodeBigInt(EncodeBigInt(n)).Some?
    ensures if n % TWO_64 == 0 then |EncodeBigInt(n)| == 2 else HexDecode(EncodeBigInt(n)).value[0] != 0
  {
    EncodeBigIntRoundTrip(n);
    if n % TWO_64 != 0 {
      LowerOfHex(BigEndian(n));
      HexRoundTrip(BigEndian(n));
      NoLeadingZero(n);
    }
  }
}
