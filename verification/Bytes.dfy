/** Byte-level encodings: little and big endian numbers, hexadecimal text, and byte order. */
module Bytes {
  import opened Words

  // ---- Little endian, fixed width -------------------------------------------------------

  function Pow256(k: nat): (r: nat)
    ensures r > 0
  {
    if k == 0 then 1 else 256 * Pow256(k - 1)
  }

  function LittleEndian(n: nat, k: nat): (r: bytes)
    ensures |r| == k
  {
    if k == 0 then [] else [n % 256] + LittleEndian(n / 256, k - 1)
  }

  function FromLittleEndian(s: bytes): nat {
    if s == [] then 0 else s[0] + 256 * FromLittleEndian(s[1..])
  }

  /** Writing the low k bytes and reading them back is reduction modulo 256^k. */
  lemma {:induction false} LittleEndianRoundTrip(n: nat, k: nat)
    requires n < Pow256(k)
    ensures FromLittleEndian(LittleEndian(n, k)) == n
  {
    if k > 0 {
      LittleEndianRoundTrip(n / 256, k - 1);
      assert LittleEndian(n, k)[1..] == LittleEndian(n / 256, k - 1);
    }
  }

  lemma {:induction false} FromLittleEndianBound(s: bytes)
    ensures FromLittleEndian(s) < Pow256(|s|)
  {
    if s != [] {
      FromLittleEndianBound(s[1..]);
    }
  }

  lemma PowersOf256()
    ensures Pow256(0) == 1 && Pow256(1) == 256 && Pow256(2) == 0x1_0000
    ensures Pow256(4) == TWO_32 && Pow256(8) == TWO_64
  {
    assert Pow256(1) == 256 * Pow256(0);
    assert Pow256(2) == 256 * Pow256(1);
    assert Pow256(3) == 256 * Pow256(2);
    assert Pow256(4) == 256 * Pow256(3);
    assert Pow256(5) == 256 * Pow256(4);
    assert Pow256(6) == 256 * Pow256(5);
    assert Pow256(7) == 256 * Pow256(6);
  }

  // ---- Big endian, minimal length (big.Int.Bytes and big.Int.SetBytes) --------------------

  function BigEndian(n: nat): (r: bytes)
    ensures r == [] <==> n == 0
  {
    if n == 0 then [] else BigEndian(n / 256) + [n % 256]
  }

  function FromBigEndian(s: bytes): nat {
    if s == [] then 0 else 256 * FromBigEndian(s[..|s| - 1]) + s[|s| - 1]
  }

  lemma {:induction false} BigEndianRoundTrip(n: nat)
    ensures FromBigEndian(BigEndian(n)) == n
  {
    if n > 0 {
      BigEndianRoundTrip(n / 256);
      assert BigEndian(n)[..|BigEndian(n)| - 1] == BigEndian(n / 256);
    }
  }

  // ---- Hexadecimal text --------------------------------------------------------------------

  /** Lower-case hex digit. */
  function HexDigit(d: nat): byte
    requires d < 16
  {
    if d < 10 then '0' as int + d else 'a' as int + d - 10
  }

  /** Value of a hex digit of either case. */
  function HexValue(c: byte): (r: Option<nat>)
    ensures r.Some? ==> r.value < 16
  {
    if '0' as int <= c <= '9' as int then Some(c - '0' as int)
    else if 'a' as int <= c <= 'f' as int then Some(c - 'a' as int + 10)
    else if 'A' as int <= c <= 'F' as int then Some(c - 'A' as int + 10)
    else None
  }

  function LowerByte(c: byte): byte {
    if 'A' as int <= c <= 'Z' as int then c + 32 else c
  }

  function UpperByte(c: byte): byte {
    if 'a' as int <= c <= 'z' as int then c - 32 else c
  }

  function Lower(s: bytes): (r: bytes)
    ensures |r| == |s|
  {
    seq(|s|, i requires 0 <= i < |s| => LowerByte(s[i]))
  }

  function Upper(s: bytes): (r: bytes)
    ensures |r| == |s|
  {
    seq(|s|, i requires 0 <= i < |s| => UpperByte(s[i]))
  }

  /** hex.EncodeToString: always lower case. */
  function HexEncode(b: bytes): (r: bytes)
    ensures |r| == 2 * |b|
  {
    if b == [] then [] else [HexDigit(b[0] / 16), HexDigit(b[0] % 16)] + HexEncode(b[1..])
  }

  /** hex.DecodeString: None stands for an odd length or an invalid digit. */
  function HexDecode(s: bytes): (r: Option<bytes>)
    ensures r.Some? ==> 2 * |r.value| == |s|
  {
    if s == [] then Some([])
    else if |s| == 1 then None
    else
      var hi, lo, rest := HexValue(s[0]), HexValue(s[1]), HexDecode(s[2..]);
      if hi.Some? && lo.Some? && rest.Some?
      then Some([16 * hi.value + lo.value] + rest.value)
      else None
  }

  /** Text in any mix of cases that spells the encoding of b decodes to b, and nothing else does. */
  lemma {:induction false} HexDecodesExactly(s: bytes, b: bytes)
    ensures HexDecode(s) == Some(b) <==> Lower(s) == HexEncode(b)
  {
    if b == [] || |s| < 2 {
      if |s| == 1 { assert |Lower(s)| == 1; }
    } else {
      HexDecodesExactly(s[2..], b[1..]);
      HexPair(s[0], s[1], b[0]);
      var l, e := Lower(s), HexEncode(b);
      assert l[2..] == Lower(s[2..]);
      assert l == [l[0], l[1]] + l[2..];
      assert e[0] == HexDigit(b[0] / 16) && e[1] == HexDigit(b[0] % 16) && e[2..] == HexEncode(b[1..]);
      assert b == [b[0]] + b[1..];
      if HexDecode(s).Some? {
        assert HexDecode(s).value[1..] == HexDecode(s[2..]).value;
      }
    }
  }

  lemma HexPair(hi: byte, lo: byte, n: byte)
    ensures HexValue(hi).Some? && HexValue(lo).Some? && 16 * HexValue(hi).value + HexValue(lo).value == n
       <==> LowerByte(hi) == HexDigit(n / 16) && LowerByte(lo) == HexDigit(n % 16)
  {
  }

  lemma {:induction false} LowerOfHex(b: bytes)
    ensures Lower(HexEncode(b)) == HexEncode(b)
    ensures Lower(Upper(HexEncode(b))) == HexEncode(b)
  {
    if b != [] {
      LowerOfHex(b[1..]);
      var e := HexEncode(b);
      assert e[2..] == HexEncode(b[1..]);
      assert Lower(e)[2..] == Lower(e[2..]);
      assert Lower(Upper(e))[2..] == Lower(Upper(e[2..]));
      forall i | 0 <= i < |e|
        ensures LowerByte(e[i]) == e[i] && LowerByte(UpperByte(e[i])) == e[i]
      {
        if i >= 2 {
          assert e[i] == e[2..][i - 2];
          assert Lower(e[2..])[i - 2] == e[2..][i - 2];
          assert Lower(Upper(e[2..]))[i - 2] == e[2..][i - 2];
        }
      }
    }
  }

  /** The text written by HexEncode, in either case, decodes to the bytes it came from. */
  lemma HexRoundTrip(b: bytes)
    ensures HexDecode(HexEncode(b)) == Some(b)
    ensures HexDecode(Upper(HexEncode(b))) == Some(b)
  {
    LowerOfHex(b);
    HexDecodesExactly(HexEncode(b), b);
    HexDecodesExactly(Upper(HexEncode(b)), b);
  }

  // ---- Byte order of bucket keys -------------------------------------------------------------

  /** Strict byte-wise lexicographic order, the order in which a bucket is scanned. */
  predicate Less(a: bytes, b: bytes) {
    if b == [] then false
    else if a == [] then true
    else a[0] < b[0] || (a[0] == b[0] && Less(a[1..], b[1..]))
  }

  lemma {:induction false} LessIsTotal(a: bytes, b: bytes)
    ensures Less(a, b) || Less(b, a) || a == b
  {
    if a != [] && b != [] && a[0] == b[0] {
      LessIsTotal(a[1..], b[1..]);
      if a[1..] == b[1..] {
        assert a == [a[0]] + a[1..] && b == [b[0]] + b[1..];
      }
    }
  }

  lemma {:induction false} LessIsIrreflexive(a: bytes)
    ensures !Less(a, a)
  {
    if a != [] { LessIsIrreflexive(a[1..]); }
  }

  lemma {:induction false} LessIsTransitive(a: bytes, b: bytes, c: bytes)
    requires Less(a, b) && Less(b, c)
    ensures Less(a, c)
  {
    if a != [] && a[0] == b[0] && b[0] == c[0] {
      LessIsTransitive(a[1..], b[1..], c[1..]);
    }
  }

  ghost predicate IsLeast(k: bytes, s: set<bytes>) {
    k in s && forall j :: j in s && j != k ==> Less(k, j)
  }

  /** A non-empty finite set of keys has a least key. */
  lemma {:induction false} LeastExists(s: set<bytes>) returns (k: bytes)
    requires s != {}
    ensures IsLeast(k, s)
  {
    var x :| x in s;
    if s == {x} {
      k := x;
    } else {
      var least := LeastExists(s - {x});
      LessIsTotal(x, least);
      if Less(x, least) {
        k := x;
        forall j | j in s && j != x ensures Less(x, j) {
          if j != least {
            assert j in s - {x};
            LessIsTransitive(x, least, j);
          }
        }
      } else {
        k := least;
        assert x != least;
        forall j | j in s && j != least ensures Less(least, j) {
          if j != x { assert j in s - {x}; }
        }
      }
    }
  }

  // ---- What the encodings look like --------------------------------------------------------------

  /** Byte i of a little-endian number counts 256^i. */
  lemma {:induction false} LittleEndianAt(n: nat, k: nat, i: nat)
    requires i < k
    ensures LittleEndian(n, k)[i] == n / Pow256(i) % 256
  {
    if i > 0 {
      LittleEndianAt(n / 256, k - 1, i - 1);
      assert LittleEndian(n, k)[1..] == LittleEndian(n / 256, k - 1);
      DivideTwice(n, i - 1);
    }
  }

  lemma DivideTwice(n: nat, k: nat)
    ensures n / 256 / Pow256(k) == n / Pow256(k + 1)
  {
    var p := Pow256(k);
    var q, r := n / 256 / p, n / 256 % p;
    var low := n % 256;
    assert n == 256 * (q * p + r) + low;
    assert n == q * (256 * p) + (256 * r + low);
    QuotientIs(n, 256 * p, q, 256 * r + low);
  }

  lemma AtLeastOnce(d: nat, x: int)
    requires x >= 1
    ensures x * d >= d
  {
  }

  lemma QuotientIs(n: nat, d: nat, q: nat, r: nat)
    requires n == q * d + r && r < d
    ensures n / d == q
  {
    var q1, r1 := n / d, n % d;
    assert n == q1 * d + r1;
    assert (q - q1) * d == r1 - r && (q1 - q) * d == r - r1;
    if q > q1 {
      AtLeastOnce(d, q - q1);
    } else if q1 > q {
      AtLeastOnce(d, q1 - q);
    }
  }

  function Reverse(s: bytes): (r: bytes)
    ensures |r| == |s|
  {
    seq(|s|, i requires 0 <= i < |s| => s[|s| - 1 - i])
  }

  /** Big endian is little endian read backwards, and a number is written without a leading zero byte. */
  lemma {:induction false} BigEndianIsReversed(s: bytes)
    ensures FromBigEndian(s) == FromLittleEndian(Reverse(s))
  {
    if s != [] {
      BigEndianIsReversed(s[..|s| - 1]);
      assert Reverse(s)[0] == s[|s| - 1] && Reverse(s)[1..] == Reverse(s[..|s| - 1]);
    }
  }

  lemma {:induction false} NoLeadingZero(n: nat)
    requires n > 0
    ensures BigEndian(n) != [] && BigEndian(n)[0] != 0
  {
    if n >= 256 {
      NoLeadingZero(n / 256);
      assert BigEndian(n)[0] == BigEndian(n / 256)[0];
    } else {
      assert BigEndian(n) == BigEndian(0) + [n];
    }
  }

  /** Two digits per byte, the high half first. */
  lemma {:induction false} HexEncodeAt(b: bytes, i: nat)
    requires i < |b|
    ensures var digits := "0123456789abcdef";
      HexEncode(b)[2 * i] == digits[b[i] / 16] as int && HexEncode(b)[2 * i + 1] == digits[b[i] % 16] as int
  {
    if i == 0 {
      Digits(b[0] / 16);
      Digits(b[0] % 16);
    } else {
      HexEncodeAt(b[1..], i - 1);
      assert HexEncode(b)[2..] == HexEncode(b[1..]);
      assert HexEncode(b)[2 * i] == HexEncode(b)[2..][2 * (i - 1)];
      assert HexEncode(b)[2 * i + 1] == HexEncode(b)[2..][2 * (i - 1) + 1];
    }
  }

  lemma Digits(d: nat)
    requires d < 16
    ensures HexDigit(d) == "0123456789abcdef"[d] as int
  {
  }

  /** Up to position i the keys agree; there a ends, or has the smaller byte. */
  predicate FirstSmallerAt(a: bytes, b: bytes, i: nat) {
    i <= |a| && i < |b| && a[..i] == b[..i] && (i < |a| ==> a[i] < b[i])
  }

  /** A key comes before another exactly when it is a proper prefix of it or smaller where they first differ. */
  lemma {:induction false} LessIff(a: bytes, b: bytes)
    ensures Less(a, b) <==> exists i: nat :: FirstSmallerAt(a, b, i)
  {
    if a == [] || b == [] {
      if b != [] {
        assert FirstSmallerAt(a, b, 0);
      }
    } else {
      LessIff(a[1..], b[1..]);
      if a[0] < b[0] {
        assert FirstSmallerAt(a, b, 0);
      }
      if i: nat :| a[0] == b[0] && FirstSmallerAt(a[1..], b[1..], i) {
        assert a[..i + 1] == [a[0]] + a[1..][..i] && b[..i + 1] == [b[0]] + b[1..][..i];
        assert FirstSmallerAt(a, b, i + 1);
      }
      if i: nat :| i > 0 && FirstSmallerAt(a, b, i) {
        assert a[..i][0] == b[..i][0];
        assert a[1..][..i - 1] == a[..i][1..] && b[1..][..i - 1] == b[..i][1..];
        assert FirstSmallerAt(a[1..], b[1..], i - 1);
      }
    }
  }
}
