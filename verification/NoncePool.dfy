/**
 All senders of one address at once. A client takes a nonce from the manager and later sends it,
 gives it back (sendTxToEth after an error) or drops it (commitHeader after an error).
 */
module NoncePool {
  import opened Words
  import opened Nonces

  type Client = nat
  datatype Task = SendTx | CommitHeader

  datatype Pool = Pool(
    book: Book,
    base: uint64,                          // the first new nonce ever issued
    held: map<Client, (uint64, Task)>,     // clients between GetAddressNonce and their next step
    sent: set<uint64>,
    leaked: set<uint64>)                   // taken, never sent and never given back

  datatype Event =
    | Get(c: Client, task: Task, pending: Option<uint64>)
    | Sent(c: Client)
    | GiveBack(c: Client)
    | Drop(c: Client)

  predicate Enabled(s: Pool, e: Event) {
    match e
    case Get(c, _, _) => c !in s.held
    case Sent(c) => c in s.held
    case GiveBack(c) => c in s.held && s.held[c].1.SendTx?
    case Drop(c) => c in s.held && s.held[c].1.CommitHeader?
  }

  function Do(s: Pool, e: Event): Pool
    requires Enabled(s, e)
  {
    match e
    case Get(c, task, pending) =>
      s.(book := AfterIssue(s.book, pending),
         base := if s.book.next.None? then NextNew(s.book, pending) else s.base,
         held := s.held[c := (IssuedNonce(s.book, pending), task)])
    case Sent(c) => s.(sent := s.sent + {s.held[c].0}, held := s.held - {c})
    case GiveBack(c) => s.(book := AfterReturn(s.book, s.held[c].0), held := s.held - {c})
    case Drop(c) => s.(leaked := s.leaked + {s.held[c].0}, held := s.held - {c})
  }

  predicate Legal(s: Pool, es: seq<Event>)
    decreases |es|
  {
    es == [] || (Enabled(s, es[0]) && Legal(Do(s, es[0]), es[1..]))
  }

  function Run(s: Pool, es: seq<Event>): Pool
    requires Legal(s, es)
    decreases |es|
  {
    if es == [] then s else Run(Do(s, es[0]), es[1..])
  }

  /** No request of the run makes the 64-bit nonce counter wrap. */
  predicate NoWrap(s: Pool, es: seq<Event>)
    requires Legal(s, es)
    decreases |es|
  {
    es == [] ||
    ((es[0].Get? ==> NextNew(s.book, es[0].pending) < TWO_64 - 1) && NoWrap(Do(s, es[0]), es[1..]))
  }

  const Start: Pool := Pool(Book(None, []), 0, map[], {}, {})

  /** The end of the interval issued so far. */
  function Next(s: Pool): uint64 {
    if s.book.next.Some? then s.book.next.value else s.base
  }

  ghost predicate Holds(s: Pool, n: uint64) {
    exists c :: c in s.held && s.held[c].0 == n
  }

  /** [base, next) is the disjoint union of held, returned, sent and leaked; no nonce has two holders. */
  ghost predicate Partition(s: Pool) {
    && (forall n: uint64 :: s.base <= n < Next(s) <==>
          n in s.book.returned || n in s.sent || n in s.leaked || Holds(s, n))
    && s.sent !! s.leaked
    && (forall n: uint64 :: n in s.book.returned ==> n !in s.sent && n !in s.leaked && !Holds(s, n))
    && (forall n: uint64 :: Holds(s, n) ==> n !in s.sent && n !in s.leaked)
    && (forall c, d :: c in s.held && d in s.held && s.held[c].0 == s.held[d].0 ==> c == d)
  }

  ghost predicate StrictlySorted(s: seq<uint64>) {
    forall i, j :: 0 <= i < j < |s| ==> s[i] < s[j]
  }

  ghost predicate Inv(s: Pool) {
    Partition(s) && StrictlySorted(s.book.returned) && s.base <= Next(s)
  }

  lemma HoldsAfter(s: Pool, e: Event)
    requires Inv(s) && Enabled(s, e)
    ensures forall n: uint64 :: Holds(Do(s, e), n) <==>
      if e.Get? then n == IssuedNonce(s.book, e.pending) || Holds(s, n)
      else n != s.held[e.c].0 && Holds(s, n)
  {
    var t := Do(s, e);
    forall n: uint64 | Holds(s, n) && (e.Get? || n != s.held[e.c].0) ensures Holds(t, n) {
      var d :| d in s.held && s.held[d].0 == n;
      assert d in t.held && t.held[d].0 == n;
    }
    if e.Get? {
      assert t.held[e.c].0 == IssuedNonce(s.book, e.pending);
    }
  }

  lemma GetStep(s: Pool, e: Event)
    requires Inv(s) && Enabled(s, e) && e.Get? && NextNew(s.book, e.pending) < TWO_64 - 1
    ensures Inv(Do(s, e))
  {
    HoldsAfter(s, e);
    assert forall c :: c in s.held ==> Holds(s, s.held[c].0);
    if s.book.returned != [] {
      HeadAndTail(s.book.returned);
    }
  }

  lemma HeadAndTail(r: seq<uint64>)
    requires r != [] && StrictlySorted(r)
    ensures StrictlySorted(r[1..]) && r[0] in r && r[0] !in r[1..]
    ensures forall n :: n in r <==> n == r[0] || n in r[1..]
  {
    assert r == [r[0]] + r[1..];
  }

  lemma Step(s: Pool, e: Event)
    requires Inv(s) && Enabled(s, e) && (e.Get? ==> NextNew(s.book, e.pending) < TWO_64 - 1)
    ensures Inv(Do(s, e))
  {
    HoldsAfter(s, e);
    match e
    case Get(_, _, _) => GetStep(s, e);
    case Sent(c) => assert Holds(s, s.held[c].0);
    case Drop(c) => assert Holds(s, s.held[c].0);
    case GiveBack(c) =>
      assert Holds(s, s.held[c].0);
      StrictlySortedReturn(s.book.returned, s.held[c].0);
  }

  /**
   Over every interleaving of the clients, nonces are conserved, the returned list stays sorted, and
   what was sent or leaked stays so.
   */
  lemma {:induction false} NoncesConserved(s: Pool, es: seq<Event>)
    requires Inv(s) && Legal(s, es) && NoWrap(s, es)
    ensures Partition(Run(s, es)) && Inv(Run(s, es))
    ensures s.sent <= Run(s, es).sent && s.leaked <= Run(s, es).leaked
    decreases |es|
  {
    if es != [] {
      Step(s, es[0]);
      NoncesConserved(Do(s, es[0]), es[1..]);
    }
  }

  /** A request is always answered with the least nonce from base on that is not held, sent or leaked. */
  lemma LeastFreeIsIssued(s: Pool, pending: Option<uint64>)
    requires Inv(s) && s.book.next.Some?
    ensures var n := IssuedNonce(s.book, pending);
      && s.base <= n && !Holds(s, n) && n !in s.sent && n !in s.leaked
      && forall m: uint64 :: s.base <= m < n ==> Holds(s, m) || m in s.sent || m in s.leaked
  {
    var n := IssuedNonce(s.book, pending);
    forall m: uint64 | s.base <= m < n ensures m !in s.book.returned {
      if s.book.returned != [] {
        assert n == s.book.returned[0];
        assert n in s.book.returned;
      }
    }
    if s.book.returned != [] {
      assert n in s.book.returned;
    }
  }

  /** The nonces handed out during a run, in order. */
  function Issued(s: Pool, es: seq<Event>): seq<uint64>
    requires Legal(s, es)
    decreases |es|
  {
    if es == [] then []
    else (if es[0].Get? then [IssuedNonce(s.book, es[0].pending)] else []) + Issued(Do(s, es[0]), es[1..])
  }

  /** A nonce that was sent, or leaked, is never handed out again. */
  lemma {:induction false} SpentIsNeverReissued(s: Pool, es: seq<Event>, n: uint64)
    requires Inv(s) && Legal(s, es) && NoWrap(s, es)
    requires n in s.sent || n in s.leaked
    ensures n !in Issued(s, es)
    decreases |es|
  {
    if es != [] {
      if es[0].Get? {
        if s.book.returned != [] {
          assert s.book.returned[0] in s.book.returned;
        }
        assert n != IssuedNonce(s.book, es[0].pending) by {
          assert s.base <= n < Next(s);
        }
      }
      Step(s, es[0]);
      SpentIsNeverReissued(Do(s, es[0]), es[1..], n);
    }
  }

  /** The nonces that commitHeader took and then returned from without sending. */
  function Dropped(s: Pool, es: seq<Event>): set<uint64>
    requires Legal(s, es)
    decreases |es|
  {
    if es == [] then {}
    else (if es[0].Drop? then {s.held[es[0].c].0} else {}) + Dropped(Do(s, es[0]), es[1..])
  }

  /** Those early returns are the only source of leaks. */
  lemma {:induction false} LeaksAreDrops(s: Pool, es: seq<Event>)
    requires Legal(s, es)
    ensures Run(s, es).leaked == s.leaked + Dropped(s, es)
    decreases |es|
  {
    if es != [] {
      LeaksAreDrops(Do(s, es[0]), es[1..]);
    }
  }

  /** With no call in flight, sent and returned nonces fill [base, next) exactly when nothing was dropped. */
  lemma GapFreeIff(es: seq<Event>)
    requires Legal(Start, es) && NoWrap(Start, es) && Run(Start, es).held == map[]
    ensures var s := Run(Start, es);
      (forall n: uint64 :: s.base <= n < Next(s) <==> n in s.sent || n in s.book.returned)
      <==> Dropped(Start, es) == {}
  {
    assert Inv(Start);
    NoncesConserved(Start, es);
    LeaksAreDrops(Start, es);
    var s := Run(Start, es);
    if n :| n in s.leaked {
      assert s.base <= n < Next(s);
    }
  }

  /** sendTxToEth alone never drops a nonce, however its calls interleave. */
  lemma SendTxAloneIsGapFree(es: seq<Event>)
    requires Legal(Start, es) && NoWrap(Start, es) && Run(Start, es).held == map[]
    requires forall e :: e in es && e.Get? ==> e.task.SendTx?
    ensures var s := Run(Start, es);
      forall n: uint64 :: s.base <= n < Next(s) <==> n in s.sent || n in s.book.returned
  {
    NoDrops(Start, es);
    GapFreeIff(es);
  }

  lemma {:induction false} NoDrops(s: Pool, es: seq<Event>)
    requires Legal(s, es)
    requires forall e :: e in es && e.Get? ==> e.task.SendTx?
    requires forall c :: c in s.held ==> s.held[c].1.SendTx?
    ensures Dropped(s, es) == {}
    decreases |es|
  {
    if es != [] {
      assert es[0] in es;
      NoDrops(Do(s, es[0]), es[1..]);
    }
  }

  lemma StepFirst(s: Pool, e: Event, es: seq<Event>, t: Pool)
    requires Enabled(s, e) && Legal(Do(s, e), es) && Run(Do(s, e), es) == t && NoWrap(Do(s, e), es)
    requires e.Get? ==> NextNew(s.book, e.pending) < TWO_64 - 1
    ensures Legal(s, [e] + es) && Run(s, [e] + es) == t && NoWrap(s, [e] + es)
  {
    assert ([e] + es)[1..] == es;
  }

  /** Four events suffice for a gap: commitHeader drops a nonce while the next one is sent. */
  lemma GapRun(c: Client, d: Client, n: uint64)
    requires c != d && n + 2 < TWO_64
    ensures var es := [Get(c, CommitHeader, Some(n)), Get(d, SendTx, None), Drop(c), Sent(d)];
      && Legal(Start, es) && NoWrap(Start, es)
      && var s := Run(Start, es);
         s.held == map[] && s.base == n && Next(s) == n + 2 && s.sent == {n + 1} && s.book.returned == []
  {
    var e1, e2, e3, e4 := Get(c, CommitHeader, Some(n)), Get(d, SendTx, None), Drop(c), Sent(d);
    var s1 := Do(Start, e1);
    var s2 := Do(s1, e2);
    var s3 := Do(s2, e3);
    var s4 := Do(s3, e4);
    assert s4.held == map[] && s4.sent == {n + 1};
    StepFirst(s3, e4, [], s4);
    assert [e4] + [] == [e4];
    StepFirst(s2, e3, [e4], s4);
    assert [e3] + [e4] == [e3, e4];
    StepFirst(s1, e2, [e3, e4], s4);
    assert [e2] + [e3, e4] == [e2, e3, e4];
    StepFirst(Start, e1, [e2, e3, e4], s4);
    assert [e1] + [e2, e3, e4] == [e1, e2, e3, e4];
  }
}
