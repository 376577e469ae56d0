/**
 The record kept for one deposit and its wire form, which is also its key in the Retry bucket.
 The sink and source classes stand for the zero-copy library the relayer imports: variable-length
 bytes are preceded by a self-delimiting unsigned length, numbers are little endian.
 */
module CrossTransfers {
  import opened Words
  import opened Bytes

  /** A byte string whose length fits the 64-bit length prefix, as every Go slice does. */
  type bytes64 = s: bytes | |s| < TWO_64 witness []

  datatype CrossTransfer = CrossTransfer(
    txIndex: bytes64, txId: bytes64, value: bytes64, toChain: uint32, height: uint64)

  // ---- What is written -----------------------------------------------------------------------

  /** Bytes that follow the tag of a length of at least 0xFD. */
  function Width(n: uint64): nat {
    if n <= 0xFFFF then 2 else if n <= 0xFFFF_FFFF then 4 else 8
  }

  function Tag(n: uint64): byte {
    if n <= 0xFFFF then 0xFD else if n <= 0xFFFF_FFFF then 0xFE else 0xFF
  }

  function VarUint(n: uint64): bytes {
    if n < 0xFD then [n] else [Tag(n)] + LittleEndian(n, Width(n))
  }

  function VarBytes(b: bytes64): bytes {
    VarUint(|b|) + b
  }

  function Encode(ct: CrossTransfer): bytes {
    VarBytes(ct.txIndex) + VarBytes(ct.txId) + VarBytes(ct.value)
    + LittleEndian(ct.toChain, 4) + LittleEndian(ct.height, 8)
  }

  // ---- What is read: a value and the bytes left over, or None at end of input ---------------------

  type Parsed<T> = Option<(T, bytes)>

  function TakeNumber(s: bytes, k: nat): Parsed<nat> {
    if |s| < k then None else Some((FromLittleEndian(s[..k]), s[k..]))
  }

  function TakeVarUint(s: bytes): Parsed<nat> {
    if s == [] then None
    else if s[0] == 0xFD then TakeNumber(s[1..], 2)
    else if s[0] == 0xFE then TakeNumber(s[1..], 4)
    else if s[0] == 0xFF then TakeNumber(s[1..], 8)
    else Some((s[0], s[1..]))
  }

  function TakeVarBytes(s: bytes): (r: Parsed<bytes64>)
  {
    var n := TakeVarUint(s);
    if n.None? || |n.value.1| < n.value.0 then None
    else
      TakeVarUintBound(s);
      Some((n.value.1[..n.value.0], n.value.1[n.value.0..]))
  }

  lemma TakeVarUintBound(s: bytes)
    ensures TakeVarUint(s).Some? ==> TakeVarUint(s).value.0 < TWO_64
  {
    PowersOf256();
    if |s| > 2 { FromLittleEndianBound(s[1..][..2]); }
    if |s| > 4 { FromLittleEndianBound(s[1..][..4]); }
    if |s| > 8 { FromLittleEndianBound(s[1..][..8]); }
  }

  function Decode(s: bytes): Parsed<CrossTransfer> {
    var txIndex := TakeVarBytes(s);
    if txIndex.None? then None else
    var txId := TakeVarBytes(txIndex.value.1);
    if txId.None? then None else
    var value := TakeVarBytes(txId.value.1);
    if value.None? then None else
    var toChain := TakeNumber(value.value.1, 4);
    if toChain.None? then None else
    var height := TakeNumber(toChain.value.1, 8);
    if height.None? then None else
    PowersOf256();
    FromLittleEndianBound(value.value.1[..4]);
    FromLittleEndianBound(toChain.value.1[..8]);
    Some((CrossTransfer(txIndex.value.0, txId.value.0, value.value.0, toChain.value.0, height.value.0),
          height.value.1))
  }

  // ---- Each reader undoes its writer --------------------------------------------------------------

  lemma NumberRoundTrip(n: nat, k: nat, rest: bytes)
    requires n < Pow256(k)
    ensures TakeNumber(LittleEndian(n, k) + rest, k) == Some((n, rest))
  {
    var s := LittleEndian(n, k) + rest;
    LittleEndianRoundTrip(n, k);
    assert s[..k] == LittleEndian(n, k) && s[k..] == rest;
  }

  lemma WidthFits(n: uint64)
    requires n >= 0xFD
    ensures n < Pow256(Width(n))
  {
    PowersOf256();
  }

  lemma TagThen(n: uint64, body: bytes, rest: bytes)
    requires n >= 0xFD
    ensures TakeVarUint([Tag(n)] + body + rest) == TakeNumber(body + rest, Width(n))
  {
    assert ([Tag(n)] + body + rest)[1..] == body + rest;
  }

  lemma VarUintRoundTrip(n: uint64, rest: bytes)
    ensures TakeVarUint(VarUint(n) + rest) == Some((n, rest))
  {
    if n < 0xFD {
      assert (VarUint(n) + rest)[1..] == rest;
    } else {
      WidthFits(n);
      NumberRoundTrip(n, Width(n), rest);
      TagThen(n, LittleEndian(n, Width(n)), rest);
    }
  }

  lemma VarBytesRoundTrip(b: bytes64, rest: bytes)
    ensures TakeVarBytes(VarBytes(b) + rest) == Some((b, rest))
  {
    VarUintRoundTrip(|b|, b + rest);
    assert VarBytes(b) + rest == VarUint(|b|) + (b + rest);
    assert (b + rest)[..|b|] == b && (b + rest)[|b|..] == rest;
  }

  /** Decoding an encoding gives the record back and leaves exactly the bytes that followed it. */
  lemma RoundTrip(ct: CrossTransfer, rest: bytes)
    ensures Decode(Encode(ct) + rest) == Some((ct, rest))
  {
    PowersOf256();
    var s5 := rest;
    var s4 := LittleEndian(ct.height, 8) + s5;
    var s3 := LittleEndian(ct.toChain, 4) + s4;
    var s2 := VarBytes(ct.value) + s3;
    var s1 := VarBytes(ct.txId) + s2;
    VarBytesRoundTrip(ct.txIndex, s1);
    VarBytesRoundTrip(ct.txId, s2);
    VarBytesRoundTrip(ct.value, s3);
    NumberRoundTrip(ct.toChain, 4, s4);
    NumberRoundTrip(ct.height, 8, s5);
    FiveThen(VarBytes(ct.txIndex), VarBytes(ct.txId), VarBytes(ct.value),
             LittleEndian(ct.toChain, 4), LittleEndian(ct.height, 8), rest);
    assert Encode(ct) + rest == VarBytes(ct.txIndex) + s1;
    DecodeSteps(VarBytes(ct.txIndex) + s1, ct, s1, s2, s3, s4, s5);
  }

  lemma FiveThen(a: bytes, b: bytes, c: bytes, d: bytes, e: bytes, rest: bytes)
    ensures a + b + c + d + e + rest == a + (b + (c + (d + (e + rest))))
  {
  }

  lemma DecodeSteps(s: bytes, ct: CrossTransfer, s1: bytes, s2: bytes, s3: bytes, s4: bytes, s5: bytes)
    requires TakeVarBytes(s) == Some((ct.txIndex, s1))
    requires TakeVarBytes(s1) == Some((ct.txId, s2))
    requires TakeVarBytes(s2) == Some((ct.value, s3))
    requires TakeNumber(s3, 4) == Some((ct.toChain, s4))
    requires TakeNumber(s4, 8) == Some((ct.height, s5))
    ensures Decode(s) == Some((ct, s5))
  {
  }

  // ---- What an encoding looks like -------------------------------------------------------------------

  /** Lengths below 0xFD take one byte; longer ones follow a tag in 2, 4 or 8 bytes, the low byte first. */
  lemma VarUintForm(n: uint64)
    ensures n <= 0xFC ==> VarUint(n) == [n]
    ensures 0xFD <= n <= 0xFFFF ==> |VarUint(n)| == 3 && VarUint(n)[0] == 0xFD
    ensures 0x1_0000 <= n <= 0xFFFF_FFFF ==> |VarUint(n)| == 5 && VarUint(n)[0] == 0xFE
    ensures 0x1_0000_0000 <= n ==> |VarUint(n)| == 9 && VarUint(n)[0] == 0xFF
    ensures forall i :: 1 <= i < |VarUint(n)| ==> VarUint(n)[i] == n / Pow256(i - 1) % 256
  {
    forall i | 1 <= i < |VarUint(n)| ensures VarUint(n)[i] == n / Pow256(i - 1) % 256 {
      LittleEndianAt(n, Width(n), i - 1);
    }
  }

  /** The fields in order: index, id and value behind their lengths, the chain in 4 bytes, the height in 8. */
  lemma EncodedFields(index: byte, id: byte, value: byte, chain: byte, height: byte)
    ensures Encode(CrossTransfer([index], [id], [value], chain, height)) ==
      [1, index, 1, id, 1, value, chain, 0, 0, 0, height, 0, 0, 0, 0, 0, 0, 0]
  {
    var zeros: bytes := [0, 0, 0, 0, 0, 0, 0];
    SmallLittleEndian(chain, 4, zeros[..3]);
    SmallLittleEndian(height, 8, zeros);
  }

  lemma SmallLittleEndian(n: byte, k: nat, zeros: bytes)
    requires k > 0 && |zeros| == k - 1 && forall i :: 0 <= i < |zeros| ==> zeros[i] == 0
    ensures LittleEndian(n, k) == [n] + zeros
  {
    Zeros(k - 1, zeros);
  }

  lemma {:induction false} Zeros(k: nat, zeros: bytes)
    requires |zeros| == k && forall i :: 0 <= i < |zeros| ==> zeros[i] == 0
    ensures LittleEndian(0, k) == zeros
  {
    if k > 0 {
      Zeros(k - 1, zeros[1..]);
    }
  }

  // ---- Readers look no further than they consume ---------------------------------------------------

  lemma TakeNumberExtends(s: bytes, k: nat, more: bytes)
    requires TakeNumber(s, k).Some?
    ensures TakeNumber(s + more, k) == Some((TakeNumber(s, k).value.0, TakeNumber(s, k).value.1 + more))
  {
    assert (s + more)[..k] == s[..k] && (s + more)[k..] == s[k..] + more;
  }

  lemma TakeVarUintExtends(s: bytes, more: bytes)
    requires TakeVarUint(s).Some?
    ensures TakeVarUint(s + more) == Some((TakeVarUint(s).value.0, TakeVarUint(s).value.1 + more))
  {
    assert (s + more)[1..] == s[1..] + more;
    if s[0] == 0xFD { TakeNumberExtends(s[1..], 2, more); }
    else if s[0] == 0xFE { TakeNumberExtends(s[1..], 4, more); }
    else if s[0] == 0xFF { TakeNumberExtends(s[1..], 8, more); }
  }

  lemma TakeVarBytesExtends(s: bytes, more: bytes)
    requires TakeVarBytes(s).Some?
    ensures TakeVarBytes(s + more) == Some((TakeVarBytes(s).value.0, TakeVarBytes(s).value.1 + more))
  {
    TakeVarUintExtends(s, more);
    var n, r := TakeVarUint(s).value.0, TakeVarUint(s).value.1;
    assert (r + more)[..n] == r[..n] && (r + more)[n..] == r[n..] + more;
  }

  /** Bytes after a complete record never change what is decoded. */
  lemma TrailingBytesAreLeft(s: bytes, more: bytes)
    requires Decode(s).Some?
    ensures Decode(s + more) == Some((Decode(s).value.0, Decode(s).value.1 + more))
  {
    TakeVarBytesExtends(s, more);
    var s1 := TakeVarBytes(s).value.1;
    TakeVarBytesExtends(s1, more);
    var s2 := TakeVarBytes(s1).value.1;
    TakeVarBytesExtends(s2, more);
    var s3 := TakeVarBytes(s2).value.1;
    TakeNumberExtends(s3, 4, more);
    TakeNumberExtends(TakeNumber(s3, 4).value.1, 8, more);
  }

  lemma PrefixOfComplete(e: bytes, ct: CrossTransfer, cut: nat)
    requires Decode(e) == Some((ct, [])) && cut < |e|
    ensures Decode(e[..cut]) == None
  {
    var p, t := e[..cut], e[cut..];
    assert p + t == e;
    if Decode(p).Some? {
      TrailingBytesAreLeft(p, t);
      assert false;
    }
  }

  /** A record cut short anywhere is rejected. */
  lemma StrictPrefixRejected(ct: CrossTransfer, cut: nat)
    requires cut < |Encode(ct)|
    ensures Decode(Encode(ct)[..cut]) == None
  {
    RoundTrip(ct, []);
    assert Encode(ct) + [] == Encode(ct);
    PrefixOfComplete(Encode(ct), ct, cut);
  }

  /** No encoding is a prefix of another, so distinct deposits never share a Retry key. */
  lemma EncodingIsPrefixFree(a: CrossTransfer, b: CrossTransfer)
    ensures Encode(a) <= Encode(b) <==> a == b
    ensures Encode(a) == Encode(b) <==> a == b
  {
    if Encode(a) <= Encode(b) {
      var t := Encode(b)[|Encode(a)|..];
      RoundTrip(a, t);
      RoundTrip(b, []);
      assert Encode(a) + t == Encode(b) == Encode(b) + [];
    }
  }

  // ---- The library classes and the two methods that use them -----------------------------------------

  class ZeroCopySink {
    var buf: bytes

    constructor ()
      ensures buf == []
    {
      buf := [];
    }

    method WriteNumber(n: nat, k: nat)
      modifies this
      ensures buf == old(buf) + LittleEndian(n, k)
    {
      buf := buf + LittleEndian(n, k);
    }

    method WriteVarUint(n: uint64)
      modifies this
      ensures buf == old(buf) + VarUint(n)
    {
      if n < 0xFD {
        buf := buf + [n];
      } else {
        buf := buf + [Tag(n)];
        WriteNumber(n, Width(n));
        ThreeInARow(old(buf), [Tag(n)], LittleEndian(n, Width(n)));
      }
    }

    method WriteVarBytes(b: bytes64)
      modifies this
      ensures buf == old(buf) + VarBytes(b)
    {
      WriteVarUint(|b|);
      buf := buf + b;
      ThreeInARow(old(buf), VarUint(|b|), b);
    }
  }

  lemma ThreeInARow(before: bytes, a: bytes, b: bytes)
    ensures before + a + b == before + (a + b)
  {
  }

  class ZeroCopySource {
    const s: bytes
    var off: nat

    ghost predicate Valid()
      reads this
    {
      off <= |s|
    }

    /** The input not yet consumed. */
    ghost function Left(): bytes
      reads this
      requires Valid()
    {
      s[off..]
    }

    constructor (s: bytes)
      ensures Valid() && Left() == s
    {
      this.s := s;
      off := 0;
    }

    method NextNumber(k: nat) returns (n: nat, eof: bool)
      requires Valid()
      modifies this
      ensures Valid()
      ensures eof <==> TakeNumber(old(Left()), k).None?
      ensures !eof ==> TakeNumber(old(Left()), k) == Some((n, Left()))
    {
      if |s| - off < k {
        return 0, true;
      }
      assert s[off..][..k] == s[off..off + k] && s[off..][k..] == s[off + k..];
      n, eof := FromLittleEndian(s[off..off + k]), false;
      off := off + k;
    }

    method NextVarUint() returns (n: nat, eof: bool)
      requires Valid()
      modifies this
      ensures Valid()
      ensures eof <==> TakeVarUint(old(Left())).None?
      ensures !eof ==> TakeVarUint(old(Left())) == Some((n, Left()))
    {
      ghost var left := Left();
      if off == |s| {
        return 0, true;
      }
      var first := s[off];
      off := off + 1;
      assert Left() == left[1..] && first == left[0];
      if first < 0xFD {
        return first, false;
      }
      n, eof := NextNumber(if first == 0xFD then 2 else if first == 0xFE then 4 else 8);
    }

    method NextVarBytes() returns (b: bytes64, eof: bool)
      requires Valid()
      modifies this
      ensures Valid()
      ensures eof <==> TakeVarBytes(old(Left())).None?
      ensures !eof ==> TakeVarBytes(old(Left())) == Some((b, Left()))
    {
      TakeVarUintBound(Left());
      var n;
      n, eof := NextVarUint();
      if eof || |s| - off < n {
        return [], true;
      }
      assert s[off..][..n] == s[off..off + n] && s[off..][n..] == s[off + n..];
      b := s[off..off + n];
      off := off + n;
    }
  }

  method Serialization(ct: CrossTransfer, sink: ZeroCopySink)
    modifies sink
    ensures sink.buf == old(sink.buf) + Encode(ct)
  {
    sink.WriteVarBytes(ct.txIndex);
    sink.WriteVarBytes(ct.txId);
    sink.WriteVarBytes(ct.value);
    sink.WriteNumber(ct.toChain, 4);
    sink.WriteNumber(ct.height, 8);
    SixInARow(old(sink.buf), VarBytes(ct.txIndex), VarBytes(ct.txId), VarBytes(ct.value),
              LittleEndian(ct.toChain, 4), LittleEndian(ct.height, 8));
  }

  lemma SixInARow(before: bytes, a: bytes, b: bytes, c: bytes, d: bytes, e: bytes)
    ensures before + a + b + c + d + e == before + (a + b + c + d + e)
  {
  }

  /** None stands for the error returned at the first field that is cut short. */
  method Deserialization(source: ZeroCopySource) returns (r: Option<CrossTransfer>)
    requires source.Valid()
    modifies source
    ensures source.Valid()
    ensures r.None? <==> Decode(old(source.Left())).None?
    ensures r.Some? ==> Decode(old(source.Left())) == Some((r.value, source.Left()))
  {
    ghost var left := source.Left();
    var txIndex, e1 := source.NextVarBytes();
    if e1 { return None; }
    var txId, e2 := source.NextVarBytes();
    if e2 { return None; }
    var value, e3 := source.NextVarBytes();
    if e3 { return None; }
    var toChain, e4 := source.NextNumber(4);
    if e4 { return None; }
    var height, e5 := source.NextNumber(8);
    if e5 { return None; }
    assert Decode(left).Some?;
    r := Some(CrossTransfer(txIndex, txId, value, toChain, height));
  }
}
