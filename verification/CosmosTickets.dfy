/**
 Cosmos sequence numbers. Concurrent callers of sendCosmosTx each take a number from a shared counter
 and then retry until the chain, which accepts numbers strictly in order, reaches theirs: a ticket
 lock whose "now serving" counter is the chain's expected sequence.
 */
module CosmosTickets {
  import opened Words

  // ---- The counter and one caller --------------------------------------------------------------------

  class CosmosSeq {
    var val: uint64

    constructor (start: uint64)
      ensures val == start
    {
      val := start;
    }

    method GetAndAdd() returns (r: uint64)
      modifies this
      ensures r == old(val) && val == Add64(old(val), 1)
    {
      r := val;
      val := Add64(val, 1);
    }
  }

  /** What one broadcast of a signed transaction comes back with. */
  datatype Reply =
    | Accepted      // code 0
    | WrongSequence // code != 0, log names the account sequence: sleep and retry
    | ConnTimeOut   // broadcast error naming a connection time-out: sleep and retry
    | Rejected      // any other error or code

  // ---- All callers and the chain ---------------------------------------------------------------------

  type Caller = nat

  datatype State = State(
    base: uint64,                  // account sequence when the relayer started
    val: uint64,                   // next number to issue
    expected: uint64,              // the chain's expected sequence
    waiting: map<Caller, uint64>,  // callers between GetAndAdd and their return, with their numbers
    accepted: set<uint64>,
    burnt: set<uint64>,            // numbers whose caller returned an error
    landed: set<uint64>)           // accepted by the chain although the caller saw a time-out

  datatype Event =
    | Take(c: Caller)
    | Accept(c: Caller)                // code 0: the chain takes a number only when it is expected
    | SeqError(c: Caller)              // the chain expects another number
    | TimeOut(c: Caller, took: bool)   // the answer is lost; took: the chain accepted it all the same
    | Abandon(c: Caller)               // signing, encoding, broadcast or check error

  predicate Enabled(s: State, e: Event) {
    if e.Take? then e.c !in s.waiting
    else
      && e.c in s.waiting
      && (e.Accept? || (e.TimeOut? && e.took) ==> s.waiting[e.c] == s.expected)
      && (e.SeqError? ==> s.waiting[e.c] != s.expected)
  }

  function Do(s: State, e: Event): State
    requires Enabled(s, e)
  {
    match e
    case Take(c) => s.(val := Add64(s.val, 1), waiting := s.waiting[c := s.val])
    case Accept(c) =>
      s.(expected := Add64(s.expected, 1), accepted := s.accepted + {s.waiting[c]}, waiting := s.waiting - {c})
    case SeqError(_) => s
    case TimeOut(c, took) =>
      if took then s.(expected := Add64(s.expected, 1), landed := s.landed + {s.waiting[c]}) else s
    case Abandon(c) => s.(burnt := s.burnt + {s.waiting[c]}, waiting := s.waiting - {c})
  }

  predicate Legal(s: State, es: seq<Event>)
    decreases |es|
  {
    es == [] || (Enabled(s, es[0]) && Legal(Do(s, es[0]), es[1..]))
  }

  function Run(s: State, es: seq<Event>): State
    requires Legal(s, es)
    decreases |es|
  {
    if es == [] then s else Run(Do(s, es[0]), es[1..])
  }

  function Takes(es: seq<Event>): nat {
    if es == [] then 0 else (if es[0].Take? then 1 else 0) + Takes(es[1..])
  }

  /** The run issues too few numbers for the 64-bit counter to wrap. */
  predicate NoWrap(s: State, es: seq<Event>) {
    s.val + Takes(es) < TWO_64
  }

  function Start(base: uint64): State {
    State(base, base, base, map[], {}, {}, {})
  }

  /** n is held by a caller that has not returned. */
  ghost predicate Waits(s: State, n: uint64) {
    exists c :: c in s.waiting && s.waiting[c] == n
  }

  /** issued = accepted + waiting + burnt, each number in exactly one place and with one holder. */
  ghost predicate Partition(s: State) {
    && (forall n: uint64 :: s.base <= n < s.val <==> n in s.accepted || n in s.burnt || Waits(s, n))
    && s.accepted !! s.burnt
    && (forall n: uint64 :: Waits(s, n) ==> n !in s.accepted && n !in s.burnt)
    && (forall c, d :: c in s.waiting && d in s.waiting && s.waiting[c] == s.waiting[d] ==> c == d)
  }

  /** The chain has passed exactly the accepted and the landed numbers. */
  ghost predicate Served(s: State) {
    && s.base <= s.expected <= s.val
    && s.accepted !! s.landed
    && (forall n: uint64 :: s.base <= n < s.expected <==> n in s.accepted || n in s.landed)
  }

  ghost predicate Inv(s: State) {
    Partition(s) && Served(s)
  }

  lemma WaitsAfter(s: State, e: Event)
    requires Enabled(s, e) && Partition(s)
    ensures forall n: uint64 :: Waits(Do(s, e), n) <==>
      if e.Take? then n == s.val || Waits(s, n)
      else if e.Accept? || e.Abandon? then n != s.waiting[e.c] && Waits(s, n)
      else Waits(s, n)
  {
    var t := Do(s, e);
    forall n: uint64 | Waits(s, n) && (e.Take? || n != s.waiting[e.c]) ensures Waits(t, n) {
      var d :| d in s.waiting && s.waiting[d] == n;
      assert d in t.waiting && t.waiting[d] == n;
    }
    if e.Take? {
      assert t.waiting[e.c] == s.val;
    }
  }

  lemma Step(s: State, e: Event)
    requires Inv(s) && Enabled(s, e) && (e.Take? ==> s.val + 1 < TWO_64)
    ensures Inv(Do(s, e))
  {
    WaitsAfter(s, e);
    if !e.Take? {
      assert Waits(s, s.waiting[e.c]);
    }
    assert forall c :: c in s.waiting ==> Waits(s, s.waiting[c]);
  }

  /** For any number of concurrent callers: no number is issued twice and none goes missing. */
  lemma {:induction false} TicketsPartition(s: State, es: seq<Event>)
    requires Inv(s) && Legal(s, es) && NoWrap(s, es)
    ensures Inv(Run(s, es))
    decreases |es|
  {
    if es != [] {
      Step(s, es[0]);
      TicketsPartition(Do(s, es[0]), es[1..]);
    }
  }

  /**
   Some caller can be served exactly when the number the chain expects was not burnt. While nothing
   was burnt and no answer was lost, the accepted numbers are the whole interval the chain has passed,
   and the least waiting number is the expected one.
   */
  lemma SomeoneCanProceedIff(base: uint64, es: seq<Event>)
    requires Legal(Start(base), es) && NoWrap(Start(base), es)
    ensures var s := Run(Start(base), es);
      && (s.expected < s.val ==> ((exists c :: Enabled(s, Accept(c))) <==> s.expected !in s.burnt))
      && (s.expected == s.val ==> !exists c :: Enabled(s, Accept(c)))
      && (s.burnt == {} && s.landed == {} ==>
            && (forall n: uint64 :: n in s.accepted <==> s.base <= n < s.expected)
            && (forall c :: c in s.waiting ==> s.expected <= s.waiting[c])
            && (s.waiting != map[] ==> Waits(s, s.expected)))
  {
    TicketsPartition(Start(base), es);
    var s := Run(Start(base), es);
    if s.expected < s.val {
      assert s.expected !in s.accepted;
      if s.expected !in s.burnt {
        var c :| c in s.waiting && s.waiting[c] == s.expected;
        assert Enabled(s, Accept(c));
      }
    }
    forall c | Enabled(s, Accept(c)) ensures s.expected < s.val && s.expected !in s.burnt {
      assert Waits(s, s.waiting[c]);
    }
    forall c | c in s.waiting ensures s.waiting[c] in s.landed || s.expected <= s.waiting[c] {
      assert Waits(s, s.waiting[c]);
    }
    if s.waiting != map[] && s.burnt == {} && s.landed == {} {
      var c :| c in s.waiting;
      assert Waits(s, s.waiting[c]);
      assert Waits(s, s.expected);
    }
  }

  lemma {:induction false} HistoryStays(s: State, es: seq<Event>)
    requires Legal(s, es)
    ensures s.burnt <= Run(s, es).burnt && s.landed <= Run(s, es).landed && s.accepted <= Run(s, es).accepted
    decreases |es|
  {
    if es != [] {
      HistoryStays(Do(s, es[0]), es[1..]);
    }
  }

  /**
   One error return is enough to stop the relayer. Once a number the chain has not taken is burnt,
   the chain never passes it: in every continuation no later number is accepted, and each one is
   still waiting or was burnt as well.
   */
  lemma BurntTicketBlocks(s: State, b: uint64, es: seq<Event>)
    requires Inv(s) && b in s.burnt && s.expected <= b && Legal(s, es) && NoWrap(s, es)
    ensures var t := Run(s, es);
      && t.expected <= b
      && (forall n: uint64 :: b <= n < t.val ==> n !in t.accepted && (Waits(t, n) || n in t.burnt))
      && (forall c :: c in t.waiting && t.waiting[c] > b ==> !Enabled(t, Accept(c)))
  {
    TicketsPartition(s, es);
    HistoryStays(s, es);
    BurntStaysAhead(s, b, es);
  }

  lemma {:induction false} BurntStaysAhead(s: State, b: uint64, es: seq<Event>)
    requires Inv(s) && b in s.burnt && s.expected <= b && Legal(s, es) && NoWrap(s, es)
    ensures Run(s, es).expected <= b
    decreases |es|
  {
    if es != [] {
      Step(s, es[0]);
      var c := es[0].c;
      if c in s.waiting {
        assert Waits(s, s.waiting[c]);
      }
      BurntStaysAhead(Do(s, es[0]), b, es[1..]);
    }
  }

  /**
   A lost answer strands its caller: when the chain accepted a number but the caller saw a time-out,
   that caller is never answered with code 0 in any continuation, and can only spin or fail.
   */
  lemma LostAnswerStrands(s: State, c: Caller, es: seq<Event>)
    requires Inv(s) && c in s.waiting && s.waiting[c] == s.expected
    requires Legal(Do(s, TimeOut(c, true)), es) && NoWrap(s, es)
    ensures s.expected !in Run(Do(s, TimeOut(c, true)), es).accepted
  {
    Step(s, TimeOut(c, true));
    TicketsPartition(Do(s, TimeOut(c, true)), es);
    HistoryStays(Do(s, TimeOut(c, true)), es);
  }

  // ---- One call among the others -----------------------------------------------------------------------

  /** A reply after which the transaction is broadcast again. */
  predicate Retried(r: Reply) {
    r.WrongSequence? || r.ConnTimeOut?
  }

  /**
   One call, for its first `rounds` broadcasts. `signed` is the outcome of signing and encoding, reply(i)
   the answer to the i-th broadcast, landed(i) whether the chain took it although its answer timed out.
   The call has returned exactly if signing failed or one of those answers is neither a sequence error nor
   a time-out; otherwise it is still spinning, with its ticket taken. `es` are its steps as a caller.
   */
  method SendCosmosTx(seq_: CosmosSeq, signed: bool, reply: nat -> Reply, rounds: nat,
                      ghost c: Caller, ghost landed: nat -> bool)
    returns (returned: bool, ok: bool, ticket: uint64, tries: nat, ghost es: seq<Event>)
    modifies seq_
    ensures ticket == old(seq_.val) && seq_.val == Add64(old(seq_.val), 1)
    ensures returned <==> !signed || exists i :: 0 <= i < rounds && (reply(i).Accepted? || reply(i).Rejected?)
    ensures tries <= rounds && forall i :: 0 <= i < tries ==> reply(i).WrongSequence? || reply(i).ConnTimeOut?
    ensures signed && returned ==> tries < rounds && (reply(tries).Accepted? || reply(tries).Rejected?)
    ensures ok <==> signed && returned && reply(tries).Accepted?
    ensures IsCall(es, c, signed, reply, landed, tries, returned)
  {
    ticket := seq_.GetAndAdd();
    tries, es := 0, [Take(c)];
    if !signed {
      es := es + [Abandon(c)];
      return true, false, ticket, tries, es;
    }
    while tries < rounds
      invariant tries <= rounds
      invariant forall i :: 0 <= i < tries ==> reply(i).WrongSequence? || reply(i).ConnTimeOut?
      invariant IsCall(es, c, signed, reply, landed, tries, false)
    {
      if !Retried(reply(tries)) {
        ok := reply(tries).Accepted?;
        es := es + [if ok then Accept(c) else Abandon(c)];
        return true, ok, ticket, tries, es;
      }
      es := es + [if reply(tries).WrongSequence? then SeqError(c) else TimeOut(c, landed(tries))];
      tries := tries + 1;
    }
    returned, ok := false, false;
  }

  /** The steps of a call: it takes its ticket, spins over each retried reply, and is accepted or gives up. */
  ghost predicate IsCall(es: seq<Event>, c: Caller, signed: bool, reply: nat -> Reply, landed: nat -> bool,
                         tries: nat, returned: bool) {
    && |es| == 1 + (if signed then tries else 0) + (if returned then 1 else 0) && es[0] == Take(c)
    && (!signed ==> returned && es[1] == Abandon(c))
    && (signed ==> forall i :: 1 <= i <= tries ==>
          es[i] == if reply(i - 1).WrongSequence? then SeqError(c) else TimeOut(c, landed(i - 1)))
    && (signed && returned ==> es[tries + 1] == if reply(tries).Accepted? then Accept(c) else Abandon(c))
  }

  /** The events of one caller within a run of all. */
  function Of(run: seq<Event>, c: Caller): seq<Event> {
    if run == [] then [] else (if run[0].c == c then [run[0]] else []) + Of(run[1..], c)
  }

  predicate NoTake(es: seq<Event>) {
    forall e :: e in es ==> !e.Take?
  }

  /** The caller's last event ended its call. */
  predicate Ended(mine: seq<Event>) {
    mine != [] && (mine[|mine| - 1].Accept? || mine[|mine| - 1].Abandon?)
  }

  lemma OfFirst(run: seq<Event>, c: Caller)
    requires run != []
    ensures if run[0].c == c then run[0] in Of(run, c) else Of(run, c) == Of(run[1..], c)
  {
  }

  lemma {:induction false} SilentAfterReturn(s: State, run: seq<Event>, c: Caller)
    requires Legal(s, run) && c !in s.waiting && NoTake(Of(run, c))
    ensures Of(run, c) == [] && c !in Run(s, run).waiting
    decreases |run|
  {
    if run != [] {
      OfFirst(run, c);
      SilentAfterReturn(Do(s, run[0]), run[1..], c);
    }
  }

  /** Where the caller's number n is once its events so far are `mine`. */
  ghost predicate Settles(t: State, c: Caller, n: uint64, mine: seq<Event>) {
    && (c in t.waiting <==> !Ended(mine)) && (c in t.waiting ==> t.waiting[c] == n)
    && (Ended(mine) ==> if mine[|mine| - 1].Accept? then n in t.accepted else n in t.burnt)
  }

  lemma {:induction false} NumberIsKept(s: State, run: seq<Event>, c: Caller, n: uint64)
    requires Legal(s, run) && c in s.waiting && s.waiting[c] == n && NoTake(Of(run, c))
    ensures Settles(Run(s, run), c, n, Of(run, c))
    decreases |run|
  {
    if run != [] {
      var t, rest := Do(s, run[0]), run[1..];
      OfFirst(run, c);
      if run[0].c != c {
        NumberIsKept(t, rest, c, n);
      } else {
        var mine := Of(run, c);
        assert mine == [run[0]] + Of(rest, c) && mine[1..] == Of(rest, c);
        if run[0].Accept? || run[0].Abandon? {
          SilentAfterReturn(t, rest, c);
          HistoryStays(t, rest);
        } else {
          NumberIsKept(t, rest, c, n);
        }
      }
    }
  }

  /**
   A call holds one number, from the counter when it takes its ticket to the end: it waits exactly until
   it returns, the number is accepted if it succeeds and burnt if it fails.
   */
  lemma {:induction false} CallKeepsItsTicket(s: State, run: seq<Event>, c: Caller) returns (n: uint64)
    requires Legal(s, run) && c !in s.waiting
    requires Of(run, c) != [] && Of(run, c)[0] == Take(c) && NoTake(Of(run, c)[1..])
    ensures Settles(Run(s, run), c, n, Of(run, c))
    decreases |run|
  {
    var t, rest := Do(s, run[0]), run[1..];
    OfFirst(run, c);
    if run[0].c != c {
      n := CallKeepsItsTicket(t, rest, c);
    } else {
      n := s.val;
      assert Of(run, c) == [run[0]] + Of(rest, c) && Of(run, c)[1..] == Of(rest, c);
      NumberIsKept(t, rest, c, n);
    }
  }

  lemma CallTakesOnce(es: seq<Event>, c: Caller, signed: bool, reply: nat -> Reply, landed: nat -> bool,
                      tries: nat, returned: bool)
    requires IsCall(es, c, signed, reply, landed, tries, returned)
    ensures NoTake(es[1..]) && (Ended(es) <==> returned)
    ensures returned ==> (es[|es| - 1].Accept? <==> signed && reply(tries).Accepted?)
  {
    forall e | e in es[1..] ensures !e.Take? {
      var j :| 0 <= j < |es[1..]| && es[1..][j] == e;
      assert es[j + 1] == e;
    }
  }

  /** For a call as it is written: it waits while it spins, and returns with its number accepted or burnt. */
  lemma CallInRun(s: State, run: seq<Event>, c: Caller, signed: bool, reply: nat -> Reply, landed: nat -> bool,
                  tries: nat, returned: bool)
    returns (n: uint64)
    requires Legal(s, run) && c !in s.waiting && IsCall(Of(run, c), c, signed, reply, landed, tries, returned)
    ensures var t := Run(s, run);
      && (c in t.waiting <==> !returned) && (!returned ==> t.waiting[c] == n)
      && (returned ==> if signed && reply(tries).Accepted? then n in t.accepted else n in t.burnt)
  {
    CallTakesOnce(Of(run, c), c, signed, reply, landed, tries, returned);
    n := CallKeepsItsTicket(s, run, c);
  }

  // ---- Exactly which tickets can still be accepted ---------------------------------------------------

  /** Some continuation has the number n accepted. */
  ghost predicate CanBeAccepted(s: State, n: uint64) {
    exists es: seq<Event> :: Accepts(s, es, n)
  }

  ghost predicate Accepts(s: State, es: seq<Event>, n: uint64) {
    Legal(s, es) && NoWrap(s, es) && n in Run(s, es).accepted
  }

  /**
   A waiting number can still be accepted exactly when the chain has not passed it and no number from
   the expected one up to it was burnt.
   */
  lemma TicketAcceptedIff(s: State, n: uint64)
    requires Inv(s) && Waits(s, n)
    ensures CanBeAccepted(s, n) <==> s.expected <= n && forall b: uint64 :: s.expected <= b < n ==> b !in s.burnt
  {
    forall es: seq<Event> | Accepts(s, es, n)
      ensures s.expected <= n && forall b: uint64 :: s.expected <= b < n ==> b !in s.burnt
    {
      TicketsPartition(s, es);
      HistoryStays(s, es);
      if b: uint64 :| s.expected <= b < n && b in s.burnt {
        BurntTicketBlocks(s, b, es);
      }
    }
    if s.expected <= n && forall b: uint64 :: s.expected <= b < n ==> b !in s.burnt {
      var es := ServeUpTo(s, n);
      assert Accepts(s, es, n);
    }
  }

  /** Serving the waiting numbers one by one, up to n. */
  lemma {:induction false} ServeUpTo(s: State, n: uint64) returns (es: seq<Event>)
    requires Inv(s) && Waits(s, n) && s.expected <= n
    requires forall b: uint64 :: s.expected <= b < n ==> b !in s.burnt
    ensures Accepts(s, es, n) && Takes(es) == 0
    decreases n - s.expected
  {
    assert s.expected !in s.accepted && Waits(s, s.expected);
    var c :| c in s.waiting && s.waiting[c] == s.expected;
    var t := Do(s, Accept(c));
    if s.expected == n {
      es := [Accept(c)];
      assert es[1..] == [] && Run(t, []) == t;
    } else {
      Step(s, Accept(c));
      WaitsAfter(s, Accept(c));
      var rest := ServeUpTo(t, n);
      es := [Accept(c)] + rest;
      assert es[1..] == rest;
    }
  }

  lemma StepFirst(s: State, e: Event, es: seq<Event>, t: State)
    requires Enabled(s, e) && Legal(Do(s, e), es) && Run(Do(s, e), es) == t
    ensures Legal(s, [e] + es) && Run(s, [e] + es) == t
    ensures Takes([e] + es) == (if e.Take? then 1 else 0) + Takes(es)
  {
    assert ([e] + es)[1..] == es;
  }

  /** Three events suffice: of two tickets the first is burnt, and the second can never be accepted. */
  lemma BlockedRun(base: uint64, c: Caller, d: Caller)
    requires c != d && base + 2 < TWO_64
    ensures var es := [Take(c), Take(d), Abandon(c)];
      && Legal(Start(base), es) && NoWrap(Start(base), es)
      && var s := Run(Start(base), es);
         Waits(s, base + 1) && s.expected == base && !CanBeAccepted(s, base + 1)
  {
    var s0 := Start(base);
    var s1 := Do(s0, Take(c));
    var s2 := Do(s1, Take(d));
    var s3 := Do(s2, Abandon(c));
    StepFirst(s2, Abandon(c), [], s3);
    StepFirst(s1, Take(d), [Abandon(c)], s3);
    StepFirst(s0, Take(c), [Take(d), Abandon(c)], s3);
    assert [Abandon(c)] + [] == [Abandon(c)];
    assert [Take(d)] + [Abandon(c)] == [Take(d), Abandon(c)];
    assert [Take(c)] + [Take(d), Abandon(c)] == [Take(c), Take(d), Abandon(c)];
    TicketsPartition(s0, [Take(c), Take(d), Abandon(c)]);
    assert s3.waiting[d] == base + 1 && Waits(s3, base + 1) && base in s3.burnt;
    TicketAcceptedIff(s3, base + 1);
  }
}
