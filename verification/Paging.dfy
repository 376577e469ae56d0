/** The loops that collect a paged answer: transactions of a block, and its validators. */
module Paging {
  import opened Words

  /** Go's integer division truncates toward zero. */
  function TruncDiv(a: int, b: int): int
    requires b > 0
  {
    if a >= 0 then a / b else -((-a) / b)
  }

  const PER_PAGE: nat := 100

  function PageCount(total: int): int {
    TruncDiv(total - 1, PER_PAGE) + 1
  }

  /** Under truncating division the count is 1 for no transaction, else the ceiling of total / 100. */
  lemma PageCountIsCeiling(total: nat)
    ensures total == 0 ==> PageCount(total) == 1
    ensures total > 0 ==> 100 * (PageCount(total) - 1) < total <= 100 * PageCount(total)
  {
  }

  type Tx = bytes
  type Proof = bytes
  datatype Page = Page(totalCount: int, txs: seq<Tx>)
  datatype BridgeTx = BridgeTx(tx: Tx, proof: Proof)

  /** The transactions of pages 1 to n; a page that was not served counts as empty. */
  function Flat(search: nat -> Option<Page>, n: nat): seq<Tx> {
    if n == 0 then [] else Flat(search, n - 1) + (if search(n).Some? then search(n).value.txs else [])
  }

  /** txs are the first |txs| of `from`, in order, each with its proof. */
  ghost predicate Proved(txs: seq<BridgeTx>, from: seq<Tx>, proof: Tx -> Option<Proof>) {
    && |txs| <= |from|
    && forall i :: 0 <= i < |txs| ==> proof(from[i]) == Some(txs[i].proof) && txs[i].tx == from[i]
  }

  /** Every page asked for is served, and every transaction on them has a proof. */
  ghost predicate Available(search: nat -> Option<Page>, proof: Tx -> Option<Proof>) {
    && search(1).Some?
    && (forall p :: 1 <= p <= Pages(search) ==> search(p).Some?)
    && (forall tx :: tx in Flat(search, Pages(search)) ==> proof(tx).Some?)
  }

  /** What a missing answer is: the first page, a page that the first one counts, or a proof. */
  lemma UnavailableIff(search: nat -> Option<Page>, proof: Tx -> Option<Proof>)
    ensures !Available(search, proof) <==>
      || search(1).None?
      || (exists p :: 1 <= p <= PageCount(search(1).value.totalCount) && search(p).None?)
      || (exists tx :: tx in Flat(search, Pages(search)) && proof(tx).None?)
  {
  }

  lemma AllProved(txs: seq<BridgeTx>, from: seq<Tx>, proof: Tx -> Option<Proof>)
    requires Proved(txs, from, proof) && |txs| == |from|
    ensures forall tx :: tx in from ==> proof(tx).Some?
  {
    forall tx | tx in from ensures proof(tx).Some? {
      var i :| 0 <= i < |from| && from[i] == tx;
      assert proof(from[i]) == Some(txs[i].proof);
    }
  }

  /**
   search(p) is the server's answer for page p, proof the answer of the proof query. Success means
   every page was served and every transaction is there once, in order; an error leaves a prefix of
   the pages served before it.
   */
  method GetBridgeTxs(search: nat -> Option<Page>, proof: Tx -> Option<Proof>)
    returns (txs: seq<BridgeTx>, err: bool)
    ensures err <==> !Available(search, proof)
    ensures !err ==> |txs| == |Flat(search, Pages(search))| && Proved(txs, Flat(search, Pages(search)), proof)
    ensures err ==> exists n :: Proved(txs, Flat(search, n), proof)
  {
    txs := [];
    var res := search(1);
    if res.None? {
      assert Proved(txs, Flat(search, 0), proof);
      return txs, true;
    }
    var pages := PageCount(res.value.totalCount);
    var p := 1;
    while p <= pages
      invariant 1 <= p && (p <= pages + 1 || p == 1)
      invariant forall q :: 1 <= q < p ==> search(q).Some?
      invariant res.Some? && (p == 1 ==> res == search(1))
      invariant |txs| == |Flat(search, p - 1)| && Proved(txs, Flat(search, p - 1), proof)
      decreases pages - p
    {
      if p > 1 {
        res := search(p);
        if res.None? {
          return txs, true;
        }
      }
      for i := 0 to |res.value.txs|
        invariant |txs| == |Flat(search, p - 1)| + i && Proved(txs, Flat(search, p), proof)
      {
        var tx := res.value.txs[i];
        var pr := proof(tx);
        assert Flat(search, p)[|txs|] == tx;
        if pr.None? {
          FlatHas(search, p, Pages(search), tx);
          return txs, true;
        }
        txs := txs + [BridgeTx(tx, pr.value)];
      }
      p := p + 1;
    }
    AllProved(txs, Flat(search, Pages(search)), proof);
    err := false;
  }

  function Pages(search: nat -> Option<Page>): nat {
    if search(1).Some? && PageCount(search(1).value.totalCount) > 0 then PageCount(search(1).value.totalCount) else 0
  }

  lemma {:induction false} FlatHas(search: nat -> Option<Page>, p: nat, n: nat, tx: Tx)
    requires p <= n && tx in Flat(search, p)
    ensures tx in Flat(search, n)
  {
    if p < n {
      FlatHas(search, p, n - 1, tx);
    }
  }

  /** Page p of the list `all`. */
  function Slice<T>(all: seq<T>, p: nat): seq<T>
    requires p >= 1
  {
    var lo := if PER_PAGE * (p - 1) < |all| then PER_PAGE * (p - 1) else |all|;
    var hi := if PER_PAGE * p < |all| then PER_PAGE * p else |all|;
    all[lo..hi]
  }

  ghost predicate Serves(search: nat -> Option<Page>, all: seq<Tx>) {
    forall p :: 1 <= p <= Pages(search) || p == 1 ==> search(p) == Some(Page(|all|, Slice(all, p)))
  }

  /** From a consistent server the pages asked for make up the whole list, each element once. */
  lemma PagesMakeUpAll(search: nat -> Option<Page>, all: seq<Tx>)
    requires Serves(search, all)
    ensures Flat(search, Pages(search)) == all
  {
    PageCountIsCeiling(|all|);
    assert search(1) == Some(Page(|all|, Slice(all, 1)));
    FlatIsPrefix(search, all, Pages(search));
  }

  lemma {:induction false} FlatIsPrefix(search: nat -> Option<Page>, all: seq<Tx>, n: nat)
    requires Serves(search, all) && n <= Pages(search)
    ensures Flat(search, n) == all[..if PER_PAGE * n < |all| then PER_PAGE * n else |all|]
  {
    if n > 0 {
      FlatIsPrefix(search, all, n - 1);
      assert search(n) == Some(Page(|all|, Slice(all, n)));
    }
  }

  // ---- Validators ----------------------------------------------------------------------------------------

  datatype ValidatorPage = Validators(vs: seq<bytes>) | OutOfRange | Failed

  /** A page that ends the loop. */
  predicate Ends(r: ValidatorPage) {
    !r.Validators? || r.vs == []
  }

  function FlatValidators(reply: nat -> ValidatorPage, n: nat): seq<bytes> {
    if n == 0 then [] else FlatValidators(reply, n - 1) + (if reply(n).Validators? then reply(n).vs else [])
  }

  /** Asks page after page until one is out of range or empty; `last` witnesses that such a page comes. */
  method GetValidators(reply: nat -> ValidatorPage, ghost last: nat)
    returns (vSet: Option<seq<bytes>>, p: nat)
    requires last >= 1 && Ends(reply(last))
    ensures 1 <= p <= last && Ends(reply(p)) && forall q :: 1 <= q < p ==> !Ends(reply(q))
    ensures vSet == if reply(p).Failed? then None else Some(FlatValidators(reply, p - 1))
  {
    p := 1;
    var vs: seq<bytes> := [];
    while true
      invariant 1 <= p <= last && forall q :: 1 <= q < p ==> !Ends(reply(q))
      invariant vs == FlatValidators(reply, p - 1)
      decreases last - p
    {
      var res := reply(p);
      if res.OutOfRange? {
        return Some(vs), p;
      }
      if res.Failed? {
        return None, p;
      }
      if |res.vs| == 0 {
        return Some(vs), p;
      }
      vs := vs + res.vs;
      p := p + 1;
    }
  }

  /** A server of the validators `all`: pages beyond the last are out of range or empty. */
  ghost predicate ServesValidators(reply: nat -> ValidatorPage, all: seq<bytes>) {
    forall p :: p >= 1 ==>
      if PER_PAGE * (p - 1) < |all| then reply(p) == Validators(Slice(all, p))
      else reply(p).OutOfRange? || reply(p) == Validators([])
  }

  /** The loop then stops right after the last page, with the whole set. */
  lemma WholeValidatorSet(reply: nat -> ValidatorPage, all: seq<bytes>, p: nat)
    requires ServesValidators(reply, all)
    requires p >= 1 && Ends(reply(p)) && forall q :: 1 <= q < p ==> !Ends(reply(q))
    ensures !reply(p).Failed? && FlatValidators(reply, p - 1) == all
    ensures PER_PAGE * (p - 1) >= |all| && (p > 1 ==> PER_PAGE * (p - 2) < |all|)
  {
    ValidatorsPrefix(reply, all, p - 1);
    if p > 1 {
      assert !Ends(reply(p - 1));
    }
  }

  lemma {:induction false} ValidatorsPrefix(reply: nat -> ValidatorPage, all: seq<bytes>, n: nat)
    requires ServesValidators(reply, all)
    ensures FlatValidators(reply, n) == all[..if PER_PAGE * n < |all| then PER_PAGE * n else |all|]
  {
    if n > 0 {
      ValidatorsPrefix(reply, all, n - 1);
      assert if PER_PAGE * (n - 1) < |all| then reply(n) == Validators(Slice(all, n))
             else reply(n).OutOfRange? || reply(n) == Validators([]);
    }
  }
}
