/**
 Ethereum nonces. The manager hands out nonces per address, takes unused ones back and reissues the
 smallest first; sendTxToEth and commitHeader are its concurrent clients.
 */
module Nonces {
  import opened Words

  type Address = bytes

  // ---- Sorting the returned nonces ----------------------------------------------------------------------

  ghost predicate Sorted(s: seq<uint64>) {
    forall i, j :: 0 <= i < j < |s| ==> s[i] <= s[j]
  }

  function Insert(s: seq<uint64>, n: uint64): seq<uint64> {
    if s == [] || n <= s[0] then [n] + s else [s[0]] + Insert(s[1..], n)
  }

  lemma {:induction false} InsertSorts(s: seq<uint64>, n: uint64)
    requires Sorted(s)
    ensures Sorted(Insert(s, n)) && multiset(Insert(s, n)) == multiset(s) + multiset{n}
    ensures Insert(s, n)[0] == if s == [] || n <= s[0] then n else s[0]
  {
    if s != [] && s[0] < n {
      InsertSorts(s[1..], n);
      var rest := Insert(s[1..], n);
      assert s == [s[0]] + s[1..];
      assert s[0] <= rest[0];
      assert Insert(s, n) == [s[0]] + rest;
    } else {
      assert Insert(s, n) == [n] + s;
    }
  }

  /** sort.Sort on a SortedNonceArr. */
  function Sort(s: seq<uint64>): seq<uint64> {
    if s == [] then [] else Insert(Sort(s[..|s| - 1]), s[|s| - 1])
  }

  lemma {:induction false} SortSorts(s: seq<uint64>)
    ensures Sorted(Sort(s)) && multiset(Sort(s)) == multiset(s)
  {
    if s != [] {
      var init, last := s[..|s| - 1], s[|s| - 1];
      SortSorts(init);
      InsertSorts(Sort(init), last);
      assert s == init + [last];
    }
  }

  // ---- The book kept for one address ------------------------------------------------------------------------

  /** next is None until the address was first asked for. */
  datatype Book = Book(next: Option<uint64>, returned: seq<uint64>)

  /** The next new nonce; a first request asks the chain, whose failure (None) counts as zero. */
  function NextNew(b: Book, pending: Option<uint64>): uint64 {
    if b.next.Some? then b.next.value else if pending.Some? then pending.value else 0
  }

  function IssuedNonce(b: Book, pending: Option<uint64>): uint64 {
    if b.returned != [] then b.returned[0] else NextNew(b, pending)
  }

  function AfterIssue(b: Book, pending: Option<uint64>): Book {
    if b.returned != [] then b.(returned := b.returned[1..])
    else b.(next := Some(Add64(NextNew(b, pending), 1)))
  }

  function AfterReturn(b: Book, n: uint64): Book {
    b.(returned := Sort(b.returned + [n]))
  }

  class NonceManager {
    var addressNonce: map<Address, uint64>
    var returnedNonce: map<Address, seq<uint64>>

    constructor ()
      ensures addressNonce == map[] && returnedNonce == map[]
    {
      addressNonce, returnedNonce := map[], map[];
    }

    function BookOf(a: Address): Book
      reads this
    {
      Book(if a in addressNonce then Some(addressNonce[a]) else None,
           if a in returnedNonce then returnedNonce[a] else [])
    }

    method GetAddressNonce(address: Address, pending: Option<uint64>) returns (nonce: uint64)
      modifies this
      ensures var returned := old(BookOf(address).returned);
        if returned != [] then nonce == returned[0] && BookOf(address).returned == returned[1..]
        else nonce == (if old(address in addressNonce) then old(addressNonce[address])
                       else if pending.Some? then pending.value else 0)
             && address in addressNonce && addressNonce[address] == Add64(nonce, 1)
      ensures nonce == old(IssuedNonce(BookOf(address), pending))
      ensures BookOf(address) == old(AfterIssue(BookOf(address), pending))
      ensures forall a :: a != address ==> BookOf(a) == old(BookOf(a))
    {
      if address in returnedNonce && |returnedNonce[address]| > 0 {
        nonce := returnedNonce[address][0];
        returnedNonce := returnedNonce[address := returnedNonce[address][1..]];
        return;
      }
      if address in addressNonce {
        nonce := addressNonce[address];
      } else {
        nonce := if pending.Some? then pending.value else 0;
        addressNonce := addressNonce[address := nonce];
      }
      addressNonce := addressNonce[address := Add64(addressNonce[address], 1)];
    }

    method ReturnNonce(addr: Address, nonce: uint64)
      modifies this
      ensures Sorted(BookOf(addr).returned)
      ensures multiset(BookOf(addr).returned) == old(multiset(BookOf(addr).returned)) + multiset{nonce}
      ensures BookOf(addr) == old(AfterReturn(BookOf(addr), nonce))
      ensures forall a :: a != addr ==> BookOf(a) == old(BookOf(a))
    {
      var arr := if addr in returnedNonce then returnedNonce[addr] else [];
      arr := arr + [nonce];
      SortSorts(arr);
      arr := Sort(arr);
      returnedNonce := returnedNonce[addr := arr];
    }
  }

  // ---- What the two clients do to the nonces that are still free --------------------------------------------

  /** n can still be issued: it was returned, or it was never issued. */
  predicate IsFree(b: Book, pending: Option<uint64>, n: uint64) {
    n in b.returned || n >= NextNew(b, pending)
  }

  ghost predicate WellKept(b: Book, pending: Option<uint64>) {
    && (forall i, j :: 0 <= i < j < |b.returned| ==> b.returned[i] < b.returned[j])
    && (forall n :: n in b.returned ==> n < NextNew(b, pending))
  }

  /** Issuing takes the least free nonce and no other. */
  lemma IssueTakesLeastFree(b: Book, pending: Option<uint64>)
    requires WellKept(b, pending) && NextNew(b, pending) < TWO_64 - 1
    ensures var n, b' := IssuedNonce(b, pending), AfterIssue(b, pending);
      && IsFree(b, pending, n) && WellKept(b', pending)
      && (forall m: uint64 :: IsFree(b, pending, m) ==> n <= m)
      && (forall m: uint64 :: IsFree(b', pending, m) <==> IsFree(b, pending, m) && m != n)
  {
    if b.returned != [] {
      assert b.returned == [b.returned[0]] + b.returned[1..];
      assert forall n :: n in b.returned[1..] ==> n in b.returned;
    }
  }

  lemma StrictlySortedReturn(s: seq<uint64>, n: uint64)
    requires (forall i, j :: 0 <= i < j < |s| ==> s[i] < s[j]) && n !in s
    ensures forall i, j :: 0 <= i < j < |Sort(s + [n])| ==> Sort(s + [n])[i] < Sort(s + [n])[j]
    ensures forall m: uint64 :: m in Sort(s + [n]) <==> m in s || m == n
  {
    var r := Sort(s + [n]);
    SortSorts(s + [n]);
    forall m: uint64 ensures m in r <==> m in s || m == n {
      assert m in r <==> m in multiset(r);
      assert m in s + [n] <==> m in multiset(s + [n]);
    }
    forall i, j | 0 <= i < j < |r| ensures r[i] < r[j] {
      if r[i] == r[j] {
        TwiceInMultiset(r, i, j);
        OnceInMultiset(s, n, r[i]);
        assert false;
      }
    }
  }

  lemma TwiceInMultiset(r: seq<uint64>, i: nat, j: nat)
    requires i < j < |r| && r[i] == r[j]
    ensures multiset(r)[r[i]] >= 2
  {
    assert r == r[..j] + [r[j]] + r[j + 1..];
    assert r[i] in r[..j];
    assert multiset(r[..j])[r[i]] >= 1;
  }

  lemma {:induction false} OnceInMultiset(s: seq<uint64>, n: uint64, m: uint64)
    requires (forall i, j :: 0 <= i < j < |s| ==> s[i] < s[j]) && n !in s
    ensures multiset(s + [n])[m] <= 1
  {
    if s == [] {
    } else {
      OnceInMultiset(s[1..], n, m);
      assert s + [n] == [s[0]] + (s[1..] + [n]);
      if m == s[0] {
        assert m !in s[1..] + [n];
      }
    }
  }

  /** Returning a nonce frees that nonce and no other. */
  lemma ReturnFreesOne(b: Book, pending: Option<uint64>, n: uint64)
    requires WellKept(b, pending) && !IsFree(b, pending, n)
    ensures var b' := AfterReturn(b, n);
      WellKept(b', pending) && forall m: uint64 :: IsFree(b', pending, m) <==> IsFree(b, pending, m) || m == n
  {
    StrictlySortedReturn(b.returned, n);
  }

  class EthSender {
    const acc: Address
    const nonceManager: NonceManager

    constructor (acc: Address, nm: NonceManager)
      ensures this.acc == acc && nonceManager == nm
    {
      this.acc, nonceManager := acc, nm;
    }

    /**
     A failed signature or send gives the nonce back, so the free nonces are what they were; a
     successful send uses up the least free one.
     */
    method SendTxToEth(pending: Option<uint64>, signed: bool, sent: bool) returns (ok: bool, nonce: uint64)
      requires WellKept(nonceManager.BookOf(acc), pending)
      requires NextNew(nonceManager.BookOf(acc), pending) < TWO_64 - 1
      modifies nonceManager
      ensures ok <==> signed && sent
      ensures WellKept(nonceManager.BookOf(acc), pending)
      ensures old(IsFree(nonceManager.BookOf(acc), pending, nonce))
      ensures forall n: uint64 :: old(IsFree(nonceManager.BookOf(acc), pending, n)) ==> nonce <= n
      ensures forall n: uint64 :: IsFree(nonceManager.BookOf(acc), pending, n)
                     <==> old(IsFree(nonceManager.BookOf(acc), pending, n)) && !(ok && n == nonce)
    {
      ghost var book := nonceManager.BookOf(acc);
      IssueTakesLeastFree(book, pending);
      nonce := nonceManager.GetAddressNonce(acc, pending);
      ghost var taken := nonceManager.BookOf(acc);
      assert forall n: uint64 :: IsFree(taken, pending, n) <==> IsFree(book, pending, n) && n != nonce;
      if !signed || !sent {
        ReturnFreesOne(taken, pending, nonce);
        nonceManager.ReturnNonce(acc, nonce);
        return false, nonce;
      }
      ok := true;
    }

    /**
     A failure before the nonce is taken changes nothing. A failure after it does not give the nonce
     back: the free nonces lose it exactly as if it had been sent.
     */
    method CommitHeader(pending: Option<uint64>, prepared: bool, signed: bool, sent: bool)
      returns (ok: bool, nonce: Option<uint64>)
      requires WellKept(nonceManager.BookOf(acc), pending)
      requires NextNew(nonceManager.BookOf(acc), pending) < TWO_64 - 1
      modifies nonceManager
      ensures ok <==> prepared && signed && sent
      ensures nonce.Some? <==> prepared
      ensures WellKept(nonceManager.BookOf(acc), pending)
      ensures forall n: uint64 :: IsFree(nonceManager.BookOf(acc), pending, n)
                             <==> old(IsFree(nonceManager.BookOf(acc), pending, n)) && nonce != Some(n)
    {
      if !prepared {
        return false, None;
      }
      IssueTakesLeastFree(nonceManager.BookOf(acc), pending);
      var n := nonceManager.GetAddressNonce(acc, pending);
      ok, nonce := signed && sent, Some(n);
    }
  }
}
