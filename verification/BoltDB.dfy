/**
 The key-value store. A bucket is scanned in byte order of its keys; every operation is one atomic
 transaction. `stored` is the store's own answer: a refused transaction changes nothing.
 */
module DB {
  import opened Words
  import opened Bytes

  const MAX_NUM: nat := 1000

  /** What a capped scan collects: the first `cap` keys in byte order, or all of them if fewer. */
  ghost predicate FirstKeys(ks: seq<bytes>, keys: set<bytes>, cap: nat) {
    && |ks| == (if |keys| <= cap then |keys| else cap)
    && (forall i :: 0 <= i < |ks| ==> ks[i] in keys)
    && (forall i, j :: 0 <= i < j < |ks| ==> Less(ks[i], ks[j]))
    && (forall i, k :: 0 <= i < |ks| && k in keys && k !in ks ==> Less(ks[i], k))
  }

  /** The order and the cap leave no freedom: a bucket has one scan. */
  lemma {:induction false} FirstKeysUnique(a: seq<bytes>, b: seq<bytes>, keys: set<bytes>, cap: nat)
    requires FirstKeys(a, keys, cap) && FirstKeys(b, keys, cap)
    ensures a == b
  {
    forall n: nat | n <= |a| ensures a[..n] == b[..n] {
      FirstKeysAgree(a, b, keys, cap, n);
    }
    assert a[..|a|] == a && b[..|a|] == b;
  }

  lemma {:induction false} FirstKeysAgree(a: seq<bytes>, b: seq<bytes>, keys: set<bytes>, cap: nat, n: nat)
    requires FirstKeys(a, keys, cap) && FirstKeys(b, keys, cap) && n <= |a|
    ensures a[..n] == b[..n]
  {
    if n > 0 {
      FirstKeysAgree(a, b, keys, cap, n - 1);
      NotEarlier(a, b, keys, cap, n - 1);
      NotEarlier(b, a, keys, cap, n - 1);
      if a[n - 1] != b[n - 1] {
        LessIsIrreflexive(a[n - 1]);
        LessIsTransitive(a[n - 1], b[n - 1], a[n - 1]);
      }
      assert a[..n] == a[..n - 1] + [a[n - 1]] && b[..n] == b[..n - 1] + [b[n - 1]];
    }
  }

  /** After an equal start, the next key of one scan does not come before the next key of the other. */
  lemma NotEarlier(a: seq<bytes>, b: seq<bytes>, keys: set<bytes>, cap: nat, n: nat)
    requires FirstKeys(a, keys, cap) && FirstKeys(b, keys, cap)
    requires n < |a| && a[..n] == b[..n]
    ensures a[n] == b[n] || Less(b[n], a[n])
  {
    forall i | 0 <= i < n ensures b[i] != a[n] {
      assert a[..n][i] == b[..n][i];
      assert Less(a[i], a[n]);
      LessIsIrreflexive(a[n]);
    }
    if a[n] in b {
      var i :| 0 <= i < |b| && b[i] == a[n];
      assert i >= n;
    }
  }

  /** The "bridge_height" record: empty before the first update, four bytes after. */
  type HeightRecord = raw: bytes | |raw| == 0 || |raw| == 4 witness []

  class BoltDB {
    var check: map<bytes, bytes>   // transaction hash -> deposit entry
    var retry: set<bytes>          // deposit entries; the stored value is a single zero byte
    var bridgeHeight: HeightRecord // the "bridge_height" record

    constructor ()
      ensures check == map[] && retry == {} && bridgeHeight == []
    {
      check, retry, bridgeHeight := map[], {}, [];
    }

    /** Files v under the decoded hash; a hash that is not hex text is refused. */
    method PutCheck(txHash: bytes, v: bytes, stored: bool) returns (ok: bool)
      modifies this`check
      ensures ok <==> stored && HexDecode(txHash).Some?
      ensures check == if ok then old(check)[HexDecode(txHash).value := v] else old(check)
    {
      var k := HexDecode(txHash);
      if k.None? {
        return false;
      }
      if stored {
        check := check[k.value := v];
      }
      ok := stored;
    }

    method DeleteCheck(txHash: bytes, stored: bool) returns (ok: bool)
      modifies this`check
      ensures ok <==> stored && HexDecode(txHash).Some?
      ensures check == if ok then old(check) - {HexDecode(txHash).value} else old(check)
    {
      var k := HexDecode(txHash);
      if k.None? {
        return false;
      }
      if stored {
        check := check - {k.value};
      }
      ok := stored;
    }

    method PutRetry(k: bytes, stored: bool) returns (ok: bool)
      modifies this`retry
      ensures ok <==> stored
      ensures retry == if stored then old(retry) + {k} else old(retry)
    {
      if stored {
        retry := retry + {k};
      }
      ok := stored;
    }

    method DeleteRetry(k: bytes, stored: bool) returns (ok: bool)
      modifies this`retry
      ensures ok <==> stored
      ensures retry == if stored then old(retry) - {k} else old(retry)
    {
      if stored {
        retry := retry - {k};
      }
      ok := stored;
    }

    /** The scan both readers share: walk the keys in byte order and stop at the cap. */
    static method Scan(keys: set<bytes>) returns (ks: seq<bytes>)
      ensures FirstKeys(ks, keys, MAX_NUM) && |ks| == if |keys| <= 1000 then |keys| else 1000
    {
      ks := [];
      var rest := keys;
      while rest != {}
        invariant rest <= keys && |ks| + |rest| == |keys| && |ks| < MAX_NUM
        invariant forall k :: k in keys <==> k in ks || k in rest
        invariant forall i, k :: 0 <= i < |ks| && k in rest ==> Less(ks[i], k)
        invariant forall i, j :: 0 <= i < j < |ks| ==> Less(ks[i], ks[j])
        decreases |rest|
      {
        ghost var least := LeastExists(rest);
        var k :| k in rest && forall j :: j in rest && j != k ==> Less(k, j);
        ks := ks + [k];
        rest := rest - {k};
        if |ks| >= MAX_NUM {
          break;
        }
      }
    }

    method GetAllRetry(stored: bool) returns (r: Option<seq<bytes>>)
      ensures r.Some? <==> stored
      ensures r.Some? ==> FirstKeys(r.value, retry, MAX_NUM)
    {
      if !stored {
        return None;
      }
      var ks := Scan(retry);
      r := Some(ks);
    }

    /** Copies the scanned entries into a map keyed by the text of each key. */
    static method Copy(check: map<bytes, bytes>, ks: seq<bytes>, text: bytes -> bytes)
      returns (view: map<bytes, bytes>)
      requires (forall k :: k in ks ==> k in check) && Injective(text)
      ensures IsView(view, check, ks, text)
    {
      view := map[];
      for i := 0 to |ks|
        invariant IsView(view, check, ks[..i], text)
      {
        ViewGrows(view, check, ks[..i], ks[i], text);
        assert ks[..i + 1] == ks[..i] + [ks[i]];
        view := view[text(ks[i]) := check[ks[i]]];
      }
      assert ks[..|ks|] == ks;
    }

    /** The Check bucket keyed by hex text, up to MAX_NUM entries. */
    method GetAllCheck(stored: bool) returns (r: Option<map<bytes, bytes>>)
      ensures r.Some? <==> stored
      ensures r.Some? ==> exists ks :: FirstKeys(ks, check.Keys, MAX_NUM) && IsView(r.value, check, ks, HexEncode)
      ensures r.Some? ==> |r.value| == if |check| <= MAX_NUM then |check| else MAX_NUM
    {
      if !stored {
        return None;
      }
      var ks := Scan(check.Keys);
      HexEncodeIsInjective();
      var view := Copy(check, ks, HexEncode);
      ViewSize(view, check, ks);
      r := Some(view);
    }

    /** The little-endian record of the last bridge height handled. */
    method UpdateBridgeHeight(h: uint32, stored: bool) returns (ok: bool)
      modifies this`bridgeHeight
      ensures ok <==> stored
      ensures bridgeHeight == if stored then LittleEndian(h, 4) else old(bridgeHeight)
    {
      if stored {
        bridgeHeight := LittleEndian(h, 4);
      }
      ok := stored;
    }

    method GetBridgeHeight() returns (h: uint32)
      ensures h == StoredHeight(bridgeHeight)
    {
      RecordBound(bridgeHeight);
      h := if |bridgeHeight| == 0 then 0 else FromLittleEndian(bridgeHeight);
    }
  }

  function StoredHeight(raw: HeightRecord): uint32 {
    RecordBound(raw);
    if |raw| == 0 then 0 else FromLittleEndian(raw)
  }

  lemma RecordBound(raw: HeightRecord)
    ensures FromLittleEndian(raw) < TWO_32
  {
    PowersOf256();
    FromLittleEndianBound(raw);
  }

  /** A height written by UpdateBridgeHeight is the height read back. */
  lemma StoredHeightRoundTrip(h: uint32)
    ensures StoredHeight(LittleEndian(h, 4)) == h && StoredHeight([]) == 0
  {
    PowersOf256();
    LittleEndianRoundTrip(h, 4);
  }

  // ---- The Check bucket as the check pass sees it --------------------------------------------------

  /** Each scanned entry appears once, under the text of its key, and nothing else appears. */
  ghost predicate IsView(view: map<bytes, bytes>, check: map<bytes, bytes>, ks: seq<bytes>, text: bytes -> bytes) {
    && (forall k :: k in ks ==> k in check && text(k) in view && view[text(k)] == check[k])
    && view.Keys == set k | k in ks :: text(k)
  }

  ghost predicate Injective(text: bytes -> bytes) {
    forall j, k :: text(j) == text(k) ==> j == k
  }

  lemma HexEncodeIsInjective()
    ensures Injective(HexEncode)
  {
    forall j, k | HexEncode(j) == HexEncode(k) ensures j == k {
      HexRoundTrip(j);
      HexRoundTrip(k);
    }
  }

  ghost predicate Distinct<T>(s: seq<T>) {
    forall i, j :: 0 <= i < j < |s| ==> s[i] != s[j]
  }

  lemma DistinctInit<T>(s: seq<T>, x: T)
    requires Distinct(s + [x])
    ensures Distinct(s) && x !in s
  {
    var t := s + [x];
    assert t[|s|] == x;
    forall i | 0 <= i < |s| ensures s[i] != x { assert t[i] == s[i]; }
    forall i, j | 0 <= i < j < |s| ensures s[i] != s[j] { assert t[i] == s[i] && t[j] == s[j]; }
  }

  lemma ViewGrows(view: map<bytes, bytes>, check: map<bytes, bytes>, ks: seq<bytes>, k: bytes, text: bytes -> bytes)
    requires IsView(view, check, ks, text) && k in check && Injective(text)
    ensures IsView(view[text(k) := check[k]], check, ks + [k], text)
  {
    assert forall j :: j in ks + [k] <==> j in ks || j == k;
  }

  /** Distinct keys have distinct texts. */
  lemma {:induction false} TextsCount(ks: seq<bytes>, text: bytes -> bytes)
    requires Distinct(ks) && Injective(text)
    ensures |set k | k in ks :: text(k)| == |ks|
  {
    if ks == [] {
      assert (set k | k in ks :: text(k)) == {};
    } else {
      var init, last := ks[..|ks| - 1], ks[|ks| - 1];
      assert ks == init + [last];
      DistinctInit(init, last);
      TextsCount(init, text);
      assert (set k | k in ks :: text(k)) == (set k | k in init :: text(k)) + {text(last)};
    }
  }

  lemma ScanIsDistinct(ks: seq<bytes>, keys: set<bytes>, cap: nat)
    requires FirstKeys(ks, keys, cap)
    ensures Distinct(ks)
  {
    forall i, j | 0 <= i < j < |ks| ensures ks[i] != ks[j] {
      assert Less(ks[i], ks[j]);
      LessIsIrreflexive(ks[i]);
    }
  }

  /** The hash text a view entry is listed under, and any other spelling of it, lead back to it. */
  lemma ViewEntry(view: map<bytes, bytes>, check: map<bytes, bytes>, ks: seq<bytes>, h: bytes)
    requires IsView(view, check, ks, HexEncode) && h in view
    ensures HexDecode(h).Some? && HexDecode(h).value in check && view[h] == check[HexDecode(h).value]
    ensures forall text :: Lower(text) == h <==> HexDecode(text) == HexDecode(h)
  {
    var k :| k in ks && HexEncode(k) == h;
    HexRoundTrip(k);
    forall text ensures Lower(text) == h <==> HexDecode(text) == Some(k) {
      HexDecodesExactly(text, k);
    }
  }

  /** GetAllCheck copies exactly min(1000, n) entries, and every entry when there are at most 1000. */
  lemma ViewSize(view: map<bytes, bytes>, check: map<bytes, bytes>, ks: seq<bytes>)
    requires FirstKeys(ks, check.Keys, MAX_NUM) && IsView(view, check, ks, HexEncode)
    ensures |view| == if |check| <= MAX_NUM then |check| else MAX_NUM
    ensures |check| <= MAX_NUM ==> forall k :: k in check ==> HexEncode(k) in view
  {
    assert |check.Keys| == |check|;
    ScanIsDistinct(ks, check.Keys, MAX_NUM);
    HexEncodeIsInjective();
    TextsCount(ks, HexEncode);
    assert |view.Keys| == |view|;
    if |check| <= MAX_NUM {
      AllScanned(ks, check.Keys);
    }
  }

  /** Deleting under a returned hash text removes the entry it was copied from and no other. */
  lemma DeleteListedEntry(view: map<bytes, bytes>, check: map<bytes, bytes>, ks: seq<bytes>, h: bytes)
    requires IsView(view, check, ks, HexEncode) && h in view
    ensures HexDecode(h).Some?
    ensures var left := check - {HexDecode(h).value};
      |left| == |check| - 1 && left.Items == check.Items - {(HexDecode(h).value, view[h])}
  {
    ViewEntry(view, check, ks, h);
    RemoveOne(check, HexDecode(h).value);
  }

  lemma RemoveOne<K, V>(m: map<K, V>, k: K)
    requires k in m
    ensures |m - {k}| == |m| - 1 && (m - {k}).Items == m.Items - {(k, m[k])}
  {
    var left := m - {k};
    assert m.Keys == left.Keys + {k};
    assert |m.Keys| == |m| && |left.Keys| == |left|;
    forall e ensures e in left.Items <==> e in m.Items && e != (k, m[k]) {
    }
  }

  lemma {:induction false} AllScanned(ks: seq<bytes>, keys: set<bytes>)
    requires FirstKeys(ks, keys, |keys|)
    ensures forall k :: k in keys ==> k in ks
  {
    ScanIsDistinct(ks, keys, |keys|);
    DistinctCount(ks);
    var taken := set k | k in ks;
    assert taken <= keys && |taken| == |keys|;
    SubsetOfSameSize(taken, keys);
  }

  lemma SubsetOfSameSize<T>(a: set<T>, b: set<T>)
    requires a <= b && |a| == |b|
    ensures a == b
  {
    assert b == a + (b - a);
  }

  lemma {:induction false} DistinctCount<T>(s: seq<T>)
    requires Distinct(s)
    ensures |set x | x in s| == |s|
  {
    if s == [] {
      assert (set x | x in s) == {};
    } else {
      var init, last := s[..|s| - 1], s[|s| - 1];
      assert s == init + [last];
      DistinctInit(init, last);
      DistinctCount(init);
      assert (set x | x in s) == (set x | x in init) + {last};
    }
  }
}
