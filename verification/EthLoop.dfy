/**
 The Ethereum monitor as a transition system: one step for a handled block, a header commit or a
 rollback. Every answer of a node, of the bridge or of the store is a function of the number of calls
 made before it, and a step carries nothing but the calls it spans: what it does is decided by the
 answers to them. EthereumManager.Tick is proved to take exactly the steps the answers decide.
 */
module EthLoop {
  import opened Words
  import opened Bytes
  import opened CrossTransfers
  import opened Utils

  /** A Go slice: its length is a non-negative int64. */
  type slice = s: bytes | |s| < TWO_63 witness []

  datatype LockEvent = LockEvent(contract: bytes, toChain: uint64, txId: slice, txHash: slice, rawdata: slice)

  /** TargetContracts: per contract address, the chain ids listed per direction. */
  type Targets = seq<map<bytes, map<bytes, seq<uint64>>>>

  const OUTBOUND: bytes := ['o' as int, 'u' as int, 't' as int, 'b' as int, 'o' as int, 'u' as int, 'n' as int, 'd' as int]

  /** The ids listed as outbound; a missing direction reads as an empty list. */
  function Outbound(directions: map<bytes, seq<uint64>>): seq<uint64> {
    if OUTBOUND in directions then directions[OUTBOUND] else []
  }

  predicate Admits(m: map<bytes, map<bytes, seq<uint64>>>, ev: LockEvent) {
    ev.contract in m && (Outbound(m[ev.contract]) == [] || ev.toChain in Outbound(m[ev.contract]))
  }

  predicate Target(targets: Targets, ev: LockEvent) {
    targets == [] || exists i :: 0 <= i < |targets| && Admits(targets[i], ev)
  }

  lemma {:induction false} BigEndianLength(s: bytes)
    ensures |BigEndian(FromBigEndian(s))| <= |s|
  {
    if s != [] {
      BigEndianLength(s[..|s| - 1]);
      assert FromBigEndian(s) / 256 == FromBigEndian(s[..|s| - 1]);
    }
  }

  /** The record of one deposit seen at one height. */
  function Deposit(ev: LockEvent, height: uint64): CrossTransfer {
    BigEndianLength(ev.txId);
    CrossTransfer(EncodeBigInt(FromBigEndian(ev.txId)), ev.txHash, ev.rawdata, Low32(ev.toChain), height)
  }

  /** The Retry key of that deposit. */
  function EntryOf(ev: LockEvent, height: uint64): bytes {
    Encode(Deposit(ev, height))
  }

  /**
   Two deposits share a Retry key exactly when they agree in height, transaction hash, payload and the
   low 32 bits of the chain, and their ids are the same number or both multiples of 2^64.
   */
  lemma EntriesDifferIff(a: LockEvent, h: uint64, b: LockEvent, k: uint64)
    ensures EntryOf(a, h) == EntryOf(b, k) <==>
      && h == k && a.txHash == b.txHash && a.rawdata == b.rawdata && Low32(a.toChain) == Low32(b.toChain)
      && (FromBigEndian(a.txId) == FromBigEndian(b.txId)
          || (FromBigEndian(a.txId) % TWO_64 == 0 && FromBigEndian(b.txId) % TWO_64 == 0))
  {
    EncodingIsPrefixFree(Deposit(a, h), Deposit(b, k));
    EncodeBigIntCollides(FromBigEndian(a.txId), FromBigEndian(b.txId));
  }

  /** The direction looked up is the one spelled "outbound". */
  lemma OutboundIsSpelled(i: nat)
    requires i < 8
    ensures |OUTBOUND| == 8 && OUTBOUND[i] == "outbound"[i] as int
  {
  }

  /** Reading an entry of Retry gives back what the monitor saw: hash, payload, chain, height and id. */
  lemma DepositIsRead(ev: LockEvent, height: uint64)
    ensures Decode(EntryOf(ev, height)).Some? && Decode(EntryOf(ev, height)).value.1 == []
    ensures var ct := Decode(EntryOf(ev, height)).value.0;
      && ct.txId == ev.txHash && ct.value == ev.rawdata
      && ct.toChain == ev.toChain % 0x1_0000_0000 && ct.height == height
      && var id := FromBigEndian(ev.txId);
         DecodeBigInt(ct.txIndex) == Some(if id % 0x1_0000_0000_0000_0000 == 0 then 0 else id)
  {
    RoundTrip(Deposit(ev, height), []);
    assert EntryOf(ev, height) + [] == EntryOf(ev, height);
    EncodeBigIntRoundTrip(FromBigEndian(ev.txId));
  }

  // ---- The answers met ------------------------------------------------------------------------------------

  /** How sending a batch of headers ends. */
  datatype CommitReply = Confirmed | ParentMissing | Failed

  /** All answers, by the number of calls made so far. */
  datatype Rpc = Rpc(
    nodeHeight: nat -> Option<uint64>,
    header: (nat, uint64) -> bytes,                     // hex of the block header, empty on error
    synced: nat -> Option<uint64>,                      // findLastestHeight
    events: (nat, uint64) -> Option<seq<LockEvent>>,    // FilterCrossChainEvent
    relayed: (nat, bytes) -> bool,                      // the deposit transaction is found on the bridge
    stored: nat -> bool,                                // the store accepts the update
    commit: (nat, seq<bytes>) -> CommitReply,           // by the headers sent
    bridgeHash: (nat, uint64) -> Option<bytes>,         // data hash of a bridge header
    ethHash: (nat, uint64) -> Option<bytes>)            // hash of an Ethereum header

  datatype World = World(rpc: Rpc, targets: Targets)

  datatype Outcome = Ignored | AlreadyRelayed | PutRefused | PutDone

  /** What becomes of an event whose handling starts at call t. */
  function OutcomeAt(w: World, ev: LockEvent, t: nat): Outcome {
    if !Target(w.targets, ev) then Ignored
    else if w.rpc.relayed(t, ev.txHash) then AlreadyRelayed
    else if w.rpc.stored(t + 1) then PutDone
    else PutRefused
  }

  /** The calls that takes: none for the filter, one to look the deposit up, one to store it. */
  function CallsAt(w: World, ev: LockEvent, t: nat): nat {
    match OutcomeAt(w, ev, t)
    case Ignored => 0
    case AlreadyRelayed => 1
    case _ => 2
  }

  /** The call at which event i is reached, when the first one is reached at call t. */
  function EventCall(w: World, evs: seq<LockEvent>, i: nat, t: nat): nat
    requires i <= |evs|
  {
    if i == 0 then t
    else EventCall(w, evs, i - 1, t) + CallsAt(w, evs[i - 1], EventCall(w, evs, i - 1, t))
  }

  /** The entries put in Retry for the first n events of a block. */
  function PutsUpTo(w: World, evs: seq<LockEvent>, n: nat, t: nat, height: uint64): set<bytes>
    requires n <= |evs|
  {
    if n == 0 then {}
    else PutsUpTo(w, evs, n - 1, t, height) +
         (if OutcomeAt(w, evs[n - 1], EventCall(w, evs, n - 1, t)).PutDone? then {EntryOf(evs[n - 1], height)} else {})
  }

  /** The entries put by fetching the events of a block at call t, and the call after that. */
  function FetchPuts(w: World, height: uint64, t: nat): set<bytes> {
    var evs := w.rpc.events(t, height);
    if evs.None? then {} else PutsUpTo(w, evs.value, |evs.value|, t + 1, height)
  }

  function FetchEnd(w: World, height: uint64, t: nat): nat {
    var evs := w.rpc.events(t, height);
    if evs.None? then t + 1 else EventCall(w, evs.value, |evs.value|, t + 1)
  }

  /** The next event is reached after one lookup and one put, or less. */
  lemma EventCallNext(w: World, evs: seq<LockEvent>, i: nat, t: nat)
    requires i < |evs|
    ensures EventCall(w, evs, 0, t) == t
    ensures EventCall(w, evs, i + 1, t) == EventCall(w, evs, i, t) +
      if !Target(w.targets, evs[i]) then 0
      else if w.rpc.relayed(EventCall(w, evs, i, t), evs[i].txHash) then 1
      else 2
  {
  }

  /** Handling a block from call `at` on succeeds: its header and then the synced height are answered. */
  predicate BlockOk(w: World, height: uint64, at: nat) {
    w.rpc.header(at, height) != [] && w.rpc.synced(at + 1).Some?
  }

  /** The header of a block handled from call `at` on is the next one the bridge wants. */
  predicate Wanted(w: World, height: uint64, at: nat) {
    w.rpc.synced(at + 1).Some? && Add64(w.rpc.synced(at + 1).value, 1) == height
  }

  /** At a call in [lo, hi), h had no bridge header, or the Ethereum header asked for next had another hash. */
  ghost predicate Passed(w: World, h: uint64, lo: nat, hi: nat) {
    exists t: nat :: lo <= t < hi &&
      (w.rpc.bridgeHash(t, h).None? ||
       (t + 1 < hi && w.rpc.ethHash(t + 1, h).Some? && w.rpc.ethHash(t + 1, h) != w.rpc.bridgeHash(t, h)))
  }

  ghost predicate AllPassed(w: World, below: uint64, top: uint64, lo: nat, hi: nat) {
    forall k: uint64 :: below < k <= top ==> Passed(w, k, lo, hi)
  }

  /** At a call in [lo, hi), the bridge header at h carried the hash of the Ethereum header asked for next. */
  ghost predicate Matches(w: World, h: uint64, lo: nat, hi: nat) {
    exists t: nat :: lo <= t && t + 1 < hi
      && w.rpc.bridgeHash(t, h).Some? && w.rpc.ethHash(t + 1, h) == w.rpc.bridgeHash(t, h)
  }

  // ---- Steps -------------------------------------------------------------------------------------------

  datatype Loop = Loop(
    cur: uint64,
    queue: seq<uint64>,      // heights of the headers waiting to be committed
    log: map<uint64, nat>,   // history: the call at which each height was last handled
    recorded: set<bytes>,    // history: every entry put in Retry
    now: nat)                // calls made by the steps so far

  /** The headers waiting to be sent: for each queued height, what the node answered when it was last handled. */
  function Headers(w: World, s: Loop): seq<bytes> {
    HeadersOf(w, s.queue, s.log)
  }

  function HeadersOf(w: World, queue: seq<uint64>, log: map<uint64, nat>): (hdrs: seq<bytes>)
    ensures |hdrs| == |queue|
  {
    if queue == [] then []
    else
      var h := queue[|queue| - 1];
      HeadersOf(w, queue[..|queue| - 1], log) + [if h in log then w.rpc.header(log[h], h) else []]
  }

  datatype Step =
    | Handled(at: nat)
    | Committed(at: nat)
    | CommitFailed(at: nat)
    | RolledBack(at: nat, until: nat, height: uint64)

  /** The answers from call e.at on decide this step, and no other. */
  ghost predicate Enabled(w: World, s: Loop, e: Step) {
    && s.now <= e.at
    && match e
       case Handled(at) => s.cur < TWO_64 - 1 && BlockOk(w, s.cur + 1, at)
       case Committed(at) => w.rpc.commit(at, Headers(w, s)).Confirmed?
       case CommitFailed(at) => w.rpc.commit(at, Headers(w, s)).Failed?
       case RolledBack(at, until, h) =>
         && w.rpc.commit(at, Headers(w, s)).ParentMissing? && at < until && h <= s.cur
         && Matches(w, h, at + 1, until)
         && AllPassed(w, h, s.cur, at + 1, until)
  }

  function Do(w: World, s: Loop, e: Step): Loop {
    match e
    case Handled(at) =>
      var h := Add64(s.cur, 1);
      Loop(h, if Wanted(w, h, at) then s.queue + [h] else s.queue,
           s.log[h := at], s.recorded + FetchPuts(w, h, at + 2), FetchEnd(w, h, at + 2))
    case Committed(at) => s.(queue := [], now := at + 1)
    case CommitFailed(at) => s.(now := at + 1)
    case RolledBack(_, until, h) => s.(cur := h, queue := [], now := until)
  }

  /** The height init starts from, by the synced height answered at call `at`; None is its error. */
  function StartOf(w: World, force: uint64, at: nat): Option<uint64> {
    var latest := w.rpc.synced(at);
    if latest.None? || latest.value == 0 then None
    else Some(if 0 < force < latest.value then force else latest.value)
  }

  /** A new process: the queue is gone with the old one, the history stays. */
  function Restarted(w: World, s: Loop, force: uint64, at: nat): Loop
    requires StartOf(w, force, at).Some?
  {
    s.(cur := StartOf(w, force, at).value, queue := [], now := at + 1)
  }

  ghost predicate Legal(w: World, s: Loop, es: seq<Step>)
    decreases |es|
  {
    es == [] || (Legal(w, s, es[..|es| - 1]) && Enabled(w, Run(w, s, es[..|es| - 1]), es[|es| - 1]))
  }

  function Run(w: World, s: Loop, es: seq<Step>): Loop
    decreases |es|
  {
    if es == [] then s else Do(w, Run(w, s, es[..|es| - 1]), es[|es| - 1])
  }

  lemma RunMore(w: World, s: Loop, es: seq<Step>, e: Step)
    ensures Run(w, s, es + [e]) == Do(w, Run(w, s, es), e)
    ensures Legal(w, s, es + [e]) <==> Legal(w, s, es) && Enabled(w, Run(w, s, es), e)
  {
    assert (es + [e])[..|es|] == es;
  }

  // ---- What a handled block was answered with ---------------------------------------------------------------

  /** Every height in the log had its header and the synced height answered when it was last handled. */
  ghost predicate LogAnswered(w: World, s: Loop) {
    forall h :: h in s.log ==> w.rpc.header(s.log[h], h) != [] && w.rpc.synced(s.log[h] + 1).Some?
  }

  lemma {:induction false} HandledWasAnswered(w: World, s: Loop, es: seq<Step>)
    requires LogAnswered(w, s) && Legal(w, s, es)
    ensures LogAnswered(w, Run(w, s, es))
    decreases |es|
  {
    if es != [] {
      HandledWasAnswered(w, s, es[..|es| - 1]);
      StepWasAnswered(w, Run(w, s, es[..|es| - 1]), es[|es| - 1]);
    }
  }

  lemma StepWasAnswered(w: World, s: Loop, e: Step)
    requires LogAnswered(w, s) && Enabled(w, s, e)
    ensures LogAnswered(w, Do(w, s, e))
  {
    if e.Handled? {
      HandledQueues(w, s, e.at);
    }
  }

  lemma {:induction false} LegalSoFar(w: World, s: Loop, es: seq<Step>, n: nat)
    requires Legal(w, s, es) && n <= |es|
    ensures Legal(w, s, es[..n])
    decreases |es|
  {
    if n == |es| {
      assert es[..n] == es;
    } else {
      LegalSoFar(w, s, es[..|es| - 1], n);
      assert es[..|es| - 1][..n] == es[..n];
    }
  }

  lemma HandledQueues(w: World, s: Loop, at: nat)
    requires Enabled(w, s, Handled(at))
    ensures var t := Do(w, s, Handled(at));
      && s.cur < TWO_64 - 1 && t.cur == s.cur + 1
      && w.rpc.header(at, t.cur) != [] && w.rpc.synced(at + 1).Some?
      && t.queue == if w.rpc.synced(at + 1).value == s.cur then s.queue + [t.cur] else s.queue
  {
  }

  /**
   Along every run, a block is handled only with its header and the synced height answered, and its
   header is queued exactly if that height is the one just below: no header the bridge waits for is passed
   over because a query failed.
   */
  lemma HandledIsQueuedIff(w: World, s: Loop, es: seq<Step>, i: nat)
    requires Legal(w, s, es) && i < |es| && es[i].Handled?
    ensures var before, after, at := Run(w, s, es[..i]), Run(w, s, es[..i + 1]), es[i].at;
      && before.cur < TWO_64 - 1 && after.cur == before.cur + 1
      && w.rpc.header(at, after.cur) != [] && w.rpc.synced(at + 1).Some?
      && after.queue == if w.rpc.synced(at + 1).value == before.cur then before.queue + [after.cur] else before.queue
  {
    StepAt(w, s, es, i);
    HandledQueues(w, Run(w, s, es[..i]), es[i].at);
  }

  lemma StepAt(w: World, s: Loop, es: seq<Step>, i: nat)
    requires Legal(w, s, es) && i < |es|
    ensures Enabled(w, Run(w, s, es[..i]), es[i])
    ensures Run(w, s, es[..i + 1]) == Do(w, Run(w, s, es[..i]), es[i])
  {
    LegalSoFar(w, s, es, i + 1);
    assert es[..i + 1] == es[..i] + [es[i]];
    RunMore(w, s, es[..i], es[i]);
  }

  // ---- Every event is recorded ---------------------------------------------------------------------------

  /**
   The target events answered for height h, handled from call `at` on: each one's entry is in `held`,
   or the bridge answered that it has the deposit, or the store refused the entry.
   */
  ghost predicate Settled(w: World, h: uint64, at: nat, held: set<bytes>) {
    var answer := w.rpc.events(at + 2, h);
    answer.Some? ==> forall i :: 0 <= i < |answer.value| ==> SettledEvent(w, h, at, held, answer.value, i)
  }

  ghost predicate SettledEvent(w: World, h: uint64, at: nat, held: set<bytes>, evs: seq<LockEvent>, i: nat)
    requires i < |evs|
  {
    Target(w.targets, evs[i]) ==>
      || EntryOf(evs[i], h) in held
      || w.rpc.relayed(EventCall(w, evs, i, at + 3), evs[i].txHash)
      || !w.rpc.stored(EventCall(w, evs, i, at + 3) + 1)
  }

  lemma {:induction false} PutIsIn(w: World, evs: seq<LockEvent>, n: nat, t: nat, height: uint64, i: nat)
    requires i < n <= |evs| && OutcomeAt(w, evs[i], EventCall(w, evs, i, t)).PutDone?
    ensures EntryOf(evs[i], height) in PutsUpTo(w, evs, n, t, height)
  {
    if i < n - 1 {
      PutIsIn(w, evs, n - 1, t, height, i);
    }
  }

  lemma {:induction false} PutComesFrom(w: World, evs: seq<LockEvent>, n: nat, t: nat, height: uint64, v: bytes)
    returns (i: nat)
    requires n <= |evs| && v in PutsUpTo(w, evs, n, t, height)
    ensures i < n && OutcomeAt(w, evs[i], EventCall(w, evs, i, t)).PutDone? && v == EntryOf(evs[i], height)
  {
    if v in PutsUpTo(w, evs, n - 1, t, height) {
      i := PutComesFrom(w, evs, n - 1, t, height, v);
    } else {
      i := n - 1;
    }
  }

  /**
   Event i of the block fetched at call t is a target, the bridge answered that it does not have it, and
   the store accepted it.
   */
  predicate Admitted(w: World, height: uint64, t: nat, i: nat) {
    && w.rpc.events(t, height).Some?
    && var evs := w.rpc.events(t, height).value;
       && i < |evs| && Target(w.targets, evs[i])
       && !w.rpc.relayed(EventCall(w, evs, i, t + 1), evs[i].txHash)
       && w.rpc.stored(EventCall(w, evs, i, t + 1) + 1)
  }

  lemma PutIsAdmitted(w: World, height: uint64, t: nat, v: bytes) returns (i: nat)
    requires v in FetchPuts(w, height, t)
    ensures Admitted(w, height, t, i) && v == EntryOf(w.rpc.events(t, height).value[i], height)
  {
    var evs := w.rpc.events(t, height).value;
    i := PutComesFrom(w, evs, |evs|, t + 1, height, v);
  }

  lemma AdmittedIsPut(w: World, height: uint64, t: nat, i: nat)
    requires Admitted(w, height, t, i)
    ensures EntryOf(w.rpc.events(t, height).value[i], height) in FetchPuts(w, height, t)
  {
    var evs := w.rpc.events(t, height).value;
    PutIsIn(w, evs, |evs|, t + 1, height, i);
  }

  ghost predicate AdmittedAs(w: World, height: uint64, t: nat, i: nat, v: bytes) {
    Admitted(w, height, t, i) && v == EntryOf(w.rpc.events(t, height).value[i], height)
  }

  /** A fetch puts exactly the entries of the events so admitted. */
  lemma FetchPutsIff(w: World, height: uint64, t: nat, v: bytes)
    ensures v in FetchPuts(w, height, t) <==> exists i: nat :: AdmittedAs(w, height, t, i, v)
  {
    if v in FetchPuts(w, height, t) {
      var i := PutIsAdmitted(w, height, t, v);
      assert AdmittedAs(w, height, t, i, v);
    }
    if i: nat :| AdmittedAs(w, height, t, i, v) {
      AdmittedIsPut(w, height, t, i);
    }
  }

  /** Fetching a block settles every event it was answered with. */
  lemma FetchSettles(w: World, h: uint64, at: nat, held: set<bytes>)
    requires FetchPuts(w, h, at + 2) <= held
    ensures Settled(w, h, at, held)
  {
    var answer := w.rpc.events(at + 2, h);
    if answer.Some? {
      var evs := answer.value;
      forall i | 0 <= i < |evs| ensures SettledEvent(w, h, at, held, evs, i) {
        if OutcomeAt(w, evs[i], EventCall(w, evs, i, at + 3)).PutDone? {
          PutIsIn(w, evs, |evs|, at + 3, h, i);
        }
      }
    }
  }

  /** Every height in (start, currentHeight] was handled, and is settled by `held`. */
  ghost predicate CoveredBy(w: World, s: Loop, start: uint64, held: set<bytes>) {
    forall h: uint64 :: start < h <= s.cur ==> h in s.log && Settled(w, h, s.log[h], held)
  }

  ghost predicate CoveredFrom(w: World, s: Loop, start: uint64) {
    CoveredBy(w, s, start, s.recorded)
  }

  lemma SettledGrows(w: World, h: uint64, at: nat, held: set<bytes>, more: set<bytes>)
    requires Settled(w, h, at, held) && held <= more
    ensures Settled(w, h, at, more)
  {
    var answer := w.rpc.events(at + 2, h);
    if answer.Some? {
      forall i | 0 <= i < |answer.value| ensures SettledEvent(w, h, at, more, answer.value, i) {
        assert SettledEvent(w, h, at, held, answer.value, i);
      }
    }
  }

  lemma CoverageStep(w: World, s: Loop, e: Step, start: uint64)
    requires CoveredFrom(w, s, start) && Enabled(w, s, e)
    ensures CoveredFrom(w, Do(w, s, e), start)
  {
    var t := Do(w, s, e);
    forall h: uint64 | start < h <= t.cur ensures h in t.log && Settled(w, h, t.log[h], t.recorded) {
      if e.Handled? && h == t.cur {
        FetchSettles(w, h, e.at, t.recorded);
      } else {
        SettledGrows(w, h, s.log[h], s.recorded, t.recorded);
      }
    }
  }

  /**
   Across ticks, failed blocks, batch commits and rollbacks: at each height in (start, currentHeight],
   every target event the node answered when the height was last handled was put in Retry, or was
   answered to be on the bridge already, or was refused by the store.
   */
  lemma {:induction false} EventsCovered(w: World, s: Loop, es: seq<Step>, start: uint64)
    requires CoveredFrom(w, s, start) && Legal(w, s, es)
    ensures CoveredFrom(w, Run(w, s, es), start)
    decreases |es|
  {
    if es != [] {
      EventsCovered(w, s, es[..|es| - 1], start);
      CoverageStep(w, Run(w, s, es[..|es| - 1]), es[|es| - 1], start);
    }
  }

  // ---- A height is handled once ----------------------------------------------------------------------------

  /** Everything in the log of s was handled before s.now. */
  ghost predicate LogInv(s: Loop) {
    forall h :: h in s.log ==> s.log[h] < s.now
  }

  lemma {:induction false} EventCallGrows(w: World, evs: seq<LockEvent>, i: nat, t: nat)
    requires i <= |evs|
    ensures t <= EventCall(w, evs, i, t)
  {
    if i > 0 {
      EventCallGrows(w, evs, i - 1, t);
    }
  }

  lemma StepMovesOn(w: World, s: Loop, e: Step)
    requires LogInv(s) && Enabled(w, s, e)
    ensures LogInv(Do(w, s, e)) && e.at < Do(w, s, e).now
  {
    if e.Handled? {
      var evs := w.rpc.events(e.at + 2, s.cur + 1);
      if evs.Some? {
        EventCallGrows(w, evs.value, |evs.value|, e.at + 3);
      }
    }
  }

  lemma {:induction false} RunMovesOn(w: World, s: Loop, es: seq<Step>)
    requires LogInv(s) && Legal(w, s, es)
    ensures LogInv(Run(w, s, es)) && s.now <= Run(w, s, es).now
    decreases |es|
  {
    if es != [] {
      RunMovesOn(w, s, es[..|es| - 1]);
      StepMovesOn(w, Run(w, s, es[..|es| - 1]), es[|es| - 1]);
    }
  }

  /** No rollback of the run goes below h. */
  ghost predicate StaysAbove(es: seq<Step>, h: uint64) {
    forall e :: e in es && e.RolledBack? ==> h <= e.height
  }

  lemma {:induction false} HandledOnce(w: World, s: Loop, es: seq<Step>, h: uint64)
    requires h <= s.cur && Legal(w, s, es) && StaysAbove(es, h)
    ensures var t := Run(w, s, es); h <= t.cur && (h in t.log <==> h in s.log) && (h in s.log ==> t.log[h] == s.log[h])
    decreases |es|
  {
    if es != [] {
      HandledOnce(w, s, es[..|es| - 1], h);
      assert es[|es| - 1] in es;
    }
  }

  lemma {:induction false} HandledAgain(w: World, s: Loop, es: seq<Step>, h: uint64)
    requires LogInv(s) && h <= s.cur && Legal(w, s, es) && !StaysAbove(es, h)
    ensures var t := Run(w, s, es); t.cur < h || (h in t.log && t.log[h] >= s.now)
    decreases |es|
  {
    var init, e := es[..|es| - 1], es[|es| - 1];
    RunMovesOn(w, s, init);
    if StaysAbove(init, h) {
      assert forall d :: d in es ==> d in init || d == e;
      HandledOnce(w, s, init, h);
    } else {
      HandledAgain(w, s, init, h);
    }
  }

  /**
   The call that handled a height stays the last one that did, as long as currentHeight ends at or
   above it, exactly when no rollback goes below it.
   */
  lemma HandledOnceIff(w: World, s: Loop, es: seq<Step>, h: uint64)
    requires LogInv(s) && h <= s.cur && h in s.log && Legal(w, s, es) && h <= Run(w, s, es).cur
    ensures var t := Run(w, s, es); h in t.log && (t.log[h] == s.log[h] <==> StaysAbove(es, h))
  {
    if StaysAbove(es, h) {
      HandledOnce(w, s, es, h);
    } else {
      HandledAgain(w, s, es, h);
    }
  }

  lemma HeightsDiffer(a: LockEvent, h: uint64, b: LockEvent, k: uint64)
    requires h != k
    ensures EntryOf(a, h) != EntryOf(b, k)
  {
    EntriesDifferIff(a, h, b, k);
  }

  /** v is the entry of no event at height k. */
  ghost predicate NoEntryAt(v: bytes, k: uint64) {
    forall b: LockEvent :: EntryOf(b, k) != v
  }

  lemma {:induction false} PutsAreEntries(w: World, evs: seq<LockEvent>, n: nat, t: nat, k: uint64, v: bytes)
    requires n <= |evs| && NoEntryAt(v, k)
    ensures v !in PutsUpTo(w, evs, n, t, k)
  {
    if n > 0 {
      PutsAreEntries(w, evs, n - 1, t, k, v);
    }
  }

  lemma FetchPutsEntries(w: World, k: uint64, t: nat, v: bytes)
    requires NoEntryAt(v, k)
    ensures v !in FetchPuts(w, k, t)
  {
    var evs := w.rpc.events(t, k);
    if evs.Some? {
      PutsAreEntries(w, evs.value, |evs.value|, t + 1, k, v);
    }
  }

  lemma {:induction false} NeverPutLater(w: World, s: Loop, es: seq<Step>, h: uint64, v: bytes)
    requires h <= s.cur && Legal(w, s, es) && StaysAbove(es, h)
    requires forall k: uint64 :: h < k ==> NoEntryAt(v, k)
    ensures v in Run(w, s, es).recorded <==> v in s.recorded
    decreases |es|
  {
    if es != [] {
      var init, e := es[..|es| - 1], es[|es| - 1];
      NeverPutLater(w, s, init, h, v);
      HandledOnce(w, s, init, h);
      if e.Handled? {
        FetchPutsEntries(w, Add64(Run(w, s, init).cur, 1), e.at + 2, v);
      }
    }
  }

  /**
   What was not recorded of a height when currentHeight passed it is never recorded: without a rollback
   below that height, the run records no entry of it, whatever the node answers later.
   */
  lemma NeverRecordedLater(w: World, s: Loop, es: seq<Step>, h: uint64, ev: LockEvent)
    requires h <= s.cur && Legal(w, s, es) && StaysAbove(es, h)
    ensures EntryOf(ev, h) in Run(w, s, es).recorded <==> EntryOf(ev, h) in s.recorded
  {
    var v := EntryOf(ev, h);
    forall k: uint64 | h < k ensures NoEntryAt(v, k) {
      forall b: LockEvent ensures EntryOf(b, k) != v {
        HeightsDiffer(b, k, ev, h);
      }
    }
    NeverPutLater(w, s, es, h, v);
  }

  /** A world that answers everything, and a deposit at every height, except that one fetch fails. */
  function OneFetchFails(synced: uint64, ev: LockEvent, failing: nat): World {
    World(Willing(synced).rpc.(events := (t, _) => if t == failing then None else Some([ev])), [])
  }

  /**
   One failed fetch is enough to lose a deposit for good: the block is handled all the same, every later
   call would answer the event, and in no continuation is it ever recorded.
   */
  lemma FailedFetchLoses(c: uint64, ev: LockEvent, more: seq<Step>)
    requires c < TWO_64 - 1
    ensures var w, s := OneFetchFails(c, ev, 2), Loop(c, [], map[], {}, 0);
      var t := Do(w, s, Handled(0));
      && Target(w.targets, ev) && (forall call: nat, h: uint64 :: call != 2 ==> w.rpc.events(call, h) == Some([ev]))
      && Enabled(w, s, Handled(0)) && t.cur == c + 1
      && (Legal(w, t, more) ==> EntryOf(ev, c + 1) !in Run(w, t, more).recorded)
  {
    var w, s := OneFetchFails(c, ev, 2), Loop(c, [], map[], {}, 0);
    assert FetchPuts(w, c + 1, 2) == {};
    var t := Do(w, s, Handled(0));
    if Legal(w, t, more) {
      NeverRecordedHere(w, t, more, ev);
    }
  }

  lemma NeverRecordedHere(w: World, s: Loop, more: seq<Step>, ev: LockEvent)
    requires Legal(w, s, more) && s.recorded == {} && forall t: nat, hdrs :: w.rpc.commit(t, hdrs).Confirmed?
    ensures EntryOf(ev, s.cur) !in Run(w, s, more).recorded
  {
    NoRollBack(w, s, more);
    NeverRecordedLater(w, s, more, s.cur, ev);
  }

  /** Where every commit is confirmed, nothing is rolled back. */
  lemma {:induction false} NoRollBack(w: World, s: Loop, es: seq<Step>)
    requires Legal(w, s, es) && forall t: nat, hdrs :: w.rpc.commit(t, hdrs).Confirmed?
    ensures forall e :: e in es ==> !e.RolledBack?
    decreases |es|
  {
    if es != [] {
      NoRollBack(w, s, es[..|es| - 1]);
      assert forall e :: e in es ==> e in es[..|es| - 1] || e == es[|es| - 1];
    }
  }

  /** Nothing recorded is forgotten, whatever is rolled back. */
  lemma {:induction false} RecordedGrows(w: World, s: Loop, es: seq<Step>)
    ensures s.recorded <= Run(w, s, es).recorded
    decreases |es|
  {
    if es != [] {
      RecordedGrows(w, s, es[..|es| - 1]);
    }
  }

  // ---- The header queue ------------------------------------------------------------------------------------

  /** Strictly increasing, and never ahead of currentHeight. */
  ghost predicate QueueInv(s: Loop) {
    && (forall i, j :: 0 <= i < j < |s.queue| ==> s.queue[i] < s.queue[j])
    && (forall i :: 0 <= i < |s.queue| ==> s.queue[i] <= s.cur)
  }

  lemma QueueStep(w: World, s: Loop, e: Step)
    requires QueueInv(s) && Enabled(w, s, e)
    ensures QueueInv(Do(w, s, e))
  {
  }

  lemma {:induction false} QueueStaysOrdered(w: World, s: Loop, es: seq<Step>)
    requires QueueInv(s) && Legal(w, s, es)
    ensures QueueInv(Run(w, s, es))
    decreases |es|
  {
    if es != [] {
      QueueStaysOrdered(w, s, es[..|es| - 1]);
      QueueStep(w, Run(w, s, es[..|es| - 1]), es[|es| - 1]);
    }
  }

  lemma {:induction false} HeadersStay(w: World, queue: seq<uint64>, log: map<uint64, nat>, h: uint64, at: nat)
    requires forall i :: 0 <= i < |queue| ==> queue[i] != h
    ensures HeadersOf(w, queue, log[h := at]) == HeadersOf(w, queue, log)
  {
    if queue != [] {
      HeadersStay(w, queue[..|queue| - 1], log, h, at);
    }
  }

  lemma HeadersGrow(w: World, queue: seq<uint64>, log: map<uint64, nat>, h: uint64, at: nat)
    requires forall i :: 0 <= i < |queue| ==> queue[i] != h
    ensures HeadersOf(w, queue + [h], log[h := at]) == HeadersOf(w, queue, log) + [w.rpc.header(at, h)]
  {
    HeadersStay(w, queue, log, h, at);
    assert (queue + [h])[..|queue|] == queue;
  }

  /** Handling block h keeps the headers waiting, and adds its own exactly when the bridge wants it next. */
  lemma HeadersAfterBlock(w: World, s: Loop, t: Loop, h: uint64, at: nat)
    requires QueueInv(s) && s.cur < h && t.log == s.log[h := at]
    requires t.queue == if Wanted(w, h, at) then s.queue + [h] else s.queue
    ensures Headers(w, t) == if Wanted(w, h, at) then Headers(w, s) + [w.rpc.header(at, h)] else Headers(w, s)
  {
    if Wanted(w, h, at) {
      HeadersGrow(w, s.queue, s.log, h, at);
    } else {
      HeadersStay(w, s.queue, s.log, h, at);
    }
  }

  /** A handled block keeps the log, the queue and the headers waiting in step. */
  lemma BlockStep(w: World, s: Loop, at: nat)
    requires LogInv(s) && QueueInv(s) && Enabled(w, s, Handled(at))
    ensures var t, h := Do(w, s, Handled(at)), s.cur + 1;
      && LogInv(t) && QueueInv(t)
      && Headers(w, t) == if Wanted(w, h, at) then Headers(w, s) + [w.rpc.header(at, h)] else Headers(w, s)
  {
    StepMovesOn(w, s, Handled(at));
    QueueStep(w, s, Handled(at));
    HeadersAfterBlock(w, s, Do(w, s, Handled(at)), s.cur + 1, at);
  }

  /** h was queued during the run, when the bridge answered a synced height of h - 1. */
  ghost predicate QueuedIn(w: World, es: seq<Step>, h: uint64) {
    exists i :: 0 <= i < |es| && es[i].Handled? && BlockOk(w, h, es[i].at) && Wanted(w, h, es[i].at)
  }

  /**
   A header is queued only at synced height + 1, and leaves only by a confirmed commit or a rollback:
   without either, the old queue is a prefix of the new one and the rest was queued at such heights.
   */
  lemma {:induction false} QueueOnlyGrows(w: World, s: Loop, es: seq<Step>)
    requires Legal(w, s, es) && forall e :: e in es ==> !e.Committed? && !e.RolledBack?
    ensures s.queue <= Run(w, s, es).queue
    ensures forall i :: |s.queue| <= i < |Run(w, s, es).queue| ==> QueuedIn(w, es, Run(w, s, es).queue[i])
    decreases |es|
  {
    if es != [] {
      var init, e := es[..|es| - 1], es[|es| - 1];
      assert e in es;
      QueueOnlyGrows(w, s, init);
      var t, end := Run(w, s, init), Run(w, s, es);
      forall i | |s.queue| <= i < |end.queue| ensures QueuedIn(w, es, end.queue[i]) {
        if i < |t.queue| {
          assert QueuedIn(w, init, t.queue[i]);
          var k :| 0 <= k < |init| && init[k].Handled? && BlockOk(w, t.queue[i], init[k].at)
                   && Wanted(w, t.queue[i], init[k].at);
          assert es[k] == init[k];
        } else {
          assert es[|es| - 1].Handled?;
        }
      }
    }
  }

  // ---- When only this relayer moves the bridge's synced height -----------------------------------------------

  /** The synced height after a step: a confirmed commit moves it to the last header committed. */
  function SyncedAfter(s: Loop, synced: uint64, e: Step): uint64 {
    if e.Committed? && s.queue != [] then s.queue[|s.queue| - 1] else synced
  }

  function SyncedAtEnd(w: World, s: Loop, synced: uint64, es: seq<Step>): uint64
    decreases |es|
  {
    if es == [] then synced
    else SyncedAfter(Run(w, s, es[..|es| - 1]), SyncedAtEnd(w, s, synced, es[..|es| - 1]), es[|es| - 1])
  }

  /** Every synced height read during the run is the one this relayer's own commits left. */
  ghost predicate OwnCommitsOnly(w: World, s: Loop, synced: uint64, es: seq<Step>)
    decreases |es|
  {
    es == [] ||
    (OwnCommitsOnly(w, s, synced, es[..|es| - 1])
     && (es[|es| - 1].Handled? ==>
           w.rpc.synced(es[|es| - 1].at + 1) == Some(SyncedAtEnd(w, s, synced, es[..|es| - 1]))))
  }

  lemma OwnMore(w: World, s: Loop, synced: uint64, es: seq<Step>, e: Step)
    ensures SyncedAtEnd(w, s, synced, es + [e]) == SyncedAfter(Run(w, s, es), SyncedAtEnd(w, s, synced, es), e)
    ensures OwnCommitsOnly(w, s, synced, es + [e]) <==>
      (OwnCommitsOnly(w, s, synced, es)
       && (e.Handled? ==> w.rpc.synced(e.at + 1) == Some(SyncedAtEnd(w, s, synced, es))))
  {
    assert (es + [e])[..|es|] == es;
  }

  ghost predicate AtMostOne(s: Loop, synced: uint64) {
    s.queue == [] || (s.queue == [Add64(synced, 1)] && Add64(synced, 1) <= s.cur)
  }

  /** The queue then never holds more than one header, and that one is the next the bridge wants. */
  lemma {:induction false} QueueHoldsAtMostOne(w: World, s: Loop, synced: uint64, es: seq<Step>)
    requires AtMostOne(s, synced) && Legal(w, s, es) && OwnCommitsOnly(w, s, synced, es)
    ensures AtMostOne(Run(w, s, es), SyncedAtEnd(w, s, synced, es))
    decreases |es|
  {
    if es != [] {
      QueueHoldsAtMostOne(w, s, synced, es[..|es| - 1]);
    }
  }

  /**
   Header syncing can stall: once currentHeight has passed the synced height with an empty queue, no
   header is queued again and the synced height never moves, unless there is a rollback.
   */
  lemma {:induction false} QueueStalls(w: World, s: Loop, synced: uint64, es: seq<Step>)
    requires s.queue == [] && synced < s.cur && Legal(w, s, es) && OwnCommitsOnly(w, s, synced, es)
    requires forall e :: e in es ==> !e.RolledBack?
    ensures Run(w, s, es).queue == [] && SyncedAtEnd(w, s, synced, es) == synced && s.cur <= Run(w, s, es).cur
    decreases |es|
  {
    if es != [] {
      assert es[|es| - 1] in es;
      QueueStalls(w, s, synced, es[..|es| - 1]);
    }
  }

  /** The synced height can still move without a rollback, for some answers. */
  ghost predicate CanSync(s: Loop, synced: uint64) {
    exists w: World, es: seq<Step> :: Syncs(w, s, synced, es)
  }

  ghost predicate Syncs(w: World, s: Loop, synced: uint64, es: seq<Step>) {
    && Legal(w, s, es) && OwnCommitsOnly(w, s, synced, es)
    && (forall e :: e in es ==> !e.RolledBack?)
    && SyncedAtEnd(w, s, synced, es) != synced
  }

  /** Answers under which every block is handled, without events, and every commit is confirmed. */
  function Willing(synced: uint64): World {
    World(Rpc(_ => None, (_, _) => [0], _ => Some(synced), (_, _) => None, (_, _) => false, _ => true,
              (_, _) => Confirmed, (_, _) => None, (_, _) => None), [])
  }

  /** Handling blocks up to the next header wanted, from below it. */
  lemma {:induction false} HandleUpTo(s: Loop, synced: uint64, n: nat) returns (es: seq<Step>)
    requires s.queue == [] && s.cur + n == synced + 1 < TWO_64 && n > 0
    ensures Legal(Willing(synced), s, es) && OwnCommitsOnly(Willing(synced), s, synced, es)
    ensures (forall e :: e in es ==> e.Handled?) && SyncedAtEnd(Willing(synced), s, synced, es) == synced
    ensures Run(Willing(synced), s, es).queue == [synced + 1] && Run(Willing(synced), s, es).cur == synced + 1
    decreases n
  {
    var w := Willing(synced);
    var t;
    es, t := HandleBelow(s, synced, n - 1);
    var e := Handled(t.now);
    RunMore(w, s, es, e);
    OwnMore(w, s, synced, es, e);
    es := es + [e];
  }

  lemma {:induction false} HandleBelow(s: Loop, synced: uint64, n: nat) returns (es: seq<Step>, t: Loop)
    requires s.queue == [] && s.cur + n <= synced < TWO_64 - 1
    ensures Legal(Willing(synced), s, es) && OwnCommitsOnly(Willing(synced), s, synced, es)
    ensures (forall e :: e in es ==> e.Handled?) && SyncedAtEnd(Willing(synced), s, synced, es) == synced
    ensures t == Run(Willing(synced), s, es) && t.queue == [] && t.cur == s.cur + n
    decreases n
  {
    if n == 0 {
      es, t := [], s;
    } else {
      var w := Willing(synced);
      es, t := HandleBelow(s, synced, n - 1);
      var e := Handled(t.now);
      RunMore(w, s, es, e);
      OwnMore(w, s, synced, es, e);
      es, t := es + [e], Do(w, t, e);
    }
  }

  lemma CannotSync(w: World, s: Loop, synced: uint64, es: seq<Step>)
    requires s.queue == [] && synced < s.cur
    ensures !Syncs(w, s, synced, es)
  {
    if Legal(w, s, es) && OwnCommitsOnly(w, s, synced, es) && forall e :: e in es ==> !e.RolledBack? {
      QueueStalls(w, s, synced, es);
    }
  }

  /** Some blocks handled, until a header is queued, and then a commit. */
  lemma SyncOnce(s: Loop, synced: uint64) returns (es: seq<Step>)
    requires AtMostOne(s, synced) && synced < TWO_64 - 1 && (s.queue != [] || s.cur <= synced)
    ensures Syncs(Willing(synced), s, synced, es)
  {
    var w := Willing(synced);
    es := [];
    if s.queue == [] {
      es := HandleUpTo(s, synced, synced + 1 - s.cur);
    }
    var e := Committed(Run(w, s, es).now);
    RunMore(w, s, es, e);
    OwnMore(w, s, synced, es, e);
    es := es + [e];
  }

  /**
   Without a rollback the synced height can move exactly when a header is queued or currentHeight has
   not yet passed the synced height.
   */
  lemma CanSyncIff(s: Loop, synced: uint64)
    requires AtMostOne(s, synced) && synced < TWO_64 - 1
    ensures CanSync(s, synced) <==> s.queue != [] || s.cur <= synced
  {
    if s.queue == [] && s.cur > synced {
      forall w: World, es: seq<Step> ensures !Syncs(w, s, synced, es) {
        CannotSync(w, s, synced, es);
      }
    } else {
      var es := SyncOnce(s, synced);
    }
  }

  predicate HandlesThenCommits(es: seq<Step>) {
    es != [] && es[|es| - 1].Committed? && forall i :: 0 <= i < |es| - 1 ==> es[i].Handled?
  }

  /** One more block handled and one commit after a header was queued at the height just handled. */
  lemma OneMoreAndCommit(s: Loop, c: uint64, es: seq<Step>) returns (more: seq<Step>)
    requires c < TWO_64 - 2 && Legal(Willing(c), s, es) && OwnCommitsOnly(Willing(c), s, c, es)
    requires SyncedAtEnd(Willing(c), s, c, es) == c && forall e :: e in es ==> e.Handled?
    requires Run(Willing(c), s, es).queue == [c + 1] && Run(Willing(c), s, es).cur == c + 1
    ensures HandlesThenCommits(more)
    ensures Legal(Willing(c), s, more) && OwnCommitsOnly(Willing(c), s, c, more)
    ensures Run(Willing(c), s, more).queue == [] && Run(Willing(c), s, more).cur == c + 2
    ensures SyncedAtEnd(Willing(c), s, c, more) == c + 1
  {
    var w := Willing(c);
    var e := Handled(Run(w, s, es).now);
    RunMore(w, s, es, e);
    OwnMore(w, s, c, es, e);
    var d := Committed(Run(w, s, es + [e]).now);
    RunMore(w, s, es + [e], d);
    OwnMore(w, s, c, es + [e], d);
    more := es + [e] + [d];
  }

  /** The stalled state is reached: two blocks past the synced height and one confirmed commit suffice. */
  lemma StallReached(c: uint64) returns (es: seq<Step>)
    requires c < TWO_64 - 2
    ensures HandlesThenCommits(es)
    ensures var w, s := Willing(c), Loop(c, [], map[], {}, 0);
      && Legal(w, s, es) && OwnCommitsOnly(w, s, c, es)
      && Run(w, s, es).queue == [] && SyncedAtEnd(w, s, c, es) == c + 1 < Run(w, s, es).cur
  {
    var s := Loop(c, [], map[], {}, 0);
    var one := HandleUpTo(s, c, 1);
    es := OneMoreAndCommit(s, c, one);
  }
}
